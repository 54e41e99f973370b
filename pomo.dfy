/** The countdown engine, `PomodoroTimer` of src/pomo.py.

    The remaining time is recomputed from the absolute start reading on every
    update (`RemainingAt`), rounded up and clamped at zero; it is never
    decremented a tick at a time. The finish callback `on_finished` is the
    field `hasFinishHook` together with the `fired` result of `Update`, which
    tells the caller that the program would have invoked the callback. */
module Pomo {
  import opened Wrappers
  import opened PyStr

  /** The status strings `start`, `stop` and `reset` return. */
  datatype Status = Started | AlreadyStarted | Stopped | NotRunning | Reset {
    function Text(): string {
      match this
      case Started => "started"
      case AlreadyStarted => "already_started"
      case Stopped => "stopped"
      case NotRunning => "not_running"
      case Reset => "reset"
    }
  }

  /** Each outcome has its own status string, so a caller comparing the
      returned strings tells every outcome apart. */
  lemma StatusTextsDistinct(a: Status, b: Status)
    ensures a.Text() == b.Text() <==> a == b
  {
  }

  /** The `ValueError` raised for a duration that is not positive. */
  datatype DurationError = NotPositive

  /** `math.ceil` on a real number. */
  function Ceil(x: real): (c: int)
    ensures c as real - 1.0 < x <= c as real
  {
    -((-x).Floor)
  }

  /** Python's `int()` on a real number: truncation toward zero. */
  function Trunc(x: real): (t: int)
    ensures 0.0 <= x ==> 0 <= t && t as real <= x < t as real + 1.0
    ensures x < 0.0 ==> t <= 0 && t as real - 1.0 < x <= t as real
  {
    if x >= 0.0 then x.Floor else -((-x).Floor)
  }

  /** The constructor's check and conversion: a duration in minutes that is
      not positive is refused, any other one is stored as `int(minutes * 60)`
      seconds. */
  function ValidateDuration(minutes: real): (r: Result<nat, DurationError>)
    ensures r.Failure? <==> minutes <= 0.0
    ensures r.Success? ==> r.value as real <= minutes * 60.0 < r.value as real + 1.0
  {
    if minutes <= 0.0 then Failure(NotPositive) else Success(Trunc(minutes * 60.0))
  }

  /** A positive duration below one second per minute passes the check and
      still truncates to a timer of zero seconds. */
  lemma SubSecondDurationTruncatesToZero()
    ensures ValidateDuration(0.01) == Success(0)
    ensures ValidateDuration(25.0) == Success(1500)
    ensures ValidateDuration(0.0) == Failure(NotPositive)
  {
  }

  /** What `update` computes at clock reading `now` for a timer of `duration`
      seconds started at `start`: the exact remainder rounded up, or zero once
      it is zero or below. It is zero exactly when the deadline has passed,
      and otherwise the remainder in whole seconds rounded up. */
  function RemainingAt(duration: nat, start: real, now: real): (r: nat)
    ensures r == 0 <==> now - start >= duration as real
    ensures r > 0 ==> r as real - 1.0 < duration as real - (now - start) <= r as real
  {
    var exact := duration as real - (now - start);
    if exact <= 0.0 then 0 else Ceil(exact)
  }

  /** With a clock that has not gone backwards, the remaining time stays
      within the duration. */
  lemma RemainingWithinDuration(duration: nat, start: real, now: real)
    requires start <= now
    ensures RemainingAt(duration, start, now) <= duration
  {
  }

  /** The remaining time never goes up as the clock advances. */
  lemma RemainingNonIncreasing(duration: nat, start: real, t1: real, t2: real)
    requires t1 <= t2
    ensures RemainingAt(duration, start, t2) <= RemainingAt(duration, start, t1)
  {
  }

  /** The remaining time depends only on the time elapsed since the start,
      never on how often or when earlier updates ran. */
  lemma RemainingDependsOnElapsedOnly(duration: nat, start: real, now: real, shift: real)
    ensures RemainingAt(duration, start + shift, now + shift) == RemainingAt(duration, start, now)
  {
  }

  /** `f"{seconds // 60:02d}:{seconds % 60:02d}"`: minutes, a colon and two
      digits of seconds; exactly `MM:SS` below 100 minutes. */
  function FormatClock(seconds: nat): (s: string)
    ensures 5 <= |s| && s[|s| - 3] == ':'
    ensures seconds < 6000 <==> |s| == 5
  {
    Pad2(seconds / 60) + ":" + Pad2(seconds % 60)
  }

  /** Reads an `MM:SS` rendering back: digits, a colon, and exactly two
      digits of seconds below 60; the minutes have at least two digits and a
      leading zero only when they have exactly two. */
  function ParseClock(s: string): Option<nat> {
    if |s| >= 5 && s[|s| - 3] == ':' && AllDigits(s[..|s| - 3]) && AllDigits(s[|s| - 2..])
       && ParseDecimal(s[|s| - 2..]) < 60 && (|s| == 5 || s[0] != '0')
    then Some(ParseDecimal(s[..|s| - 3]) * 60 + ParseDecimal(s[|s| - 2..]))
    else None
  }

  /** Every rendering reads back as the number of seconds it was made from:
      minutes times 60 plus seconds, with the seconds below 60. */
  lemma {:induction false} ClockRoundTrip(seconds: nat)
    ensures ParseClock(FormatClock(seconds)) == Some(seconds)
  {
    var mm, ss := Pad2(seconds / 60), Pad2(seconds % 60);
    var s := mm + ":" + ss;
    assert |ss| == 2;
    assert s[..|s| - 3] == mm;
    assert s[|s| - 2..] == ss;
    assert s[0] == mm[0];
  }

  /** The parser accepts nothing but renderings: whatever it reads back as a
      number of seconds is exactly how `format_time` shows that number, so
      the round trip above fixes the rendering character for character. */
  lemma ClockCanonical(s: string)
    requires ParseClock(s).Some?
    ensures FormatClock(ParseClock(s).value) == s
  {
    var mm, ss := s[..|s| - 3], s[|s| - 2..];
    var n := ParseClock(s).value;
    assert n / 60 == ParseDecimal(mm) && n % 60 == ParseDecimal(ss);
    assert mm[0] == s[0];
    Pad2Canonical(mm);
    Pad2Canonical(ss);
    assert s == mm + ":" + ss;
  }

  /** The minutes are not limited to two digits. */
  lemma LongDurationsShowThreeDigitMinutes()
    ensures FormatClock(6000) == "100:00"
    ensures FormatClock(1500) == "25:00"
    ensures FormatClock(272) == "04:32"
  {
    assert Decimal(100) == Decimal(10) + "0";
    assert Decimal(10) == "10";
    assert Decimal(25) == "25";
    assert Decimal(32) == "32";
  }

  class PomodoroTimer {
    /** `duration`: whole seconds, fixed at construction. */
    const duration: nat
    var activity: string
    /** `_start_time`: the `time.time()` reading of the last start, 0.0 when reset. */
    var startTime: real
    /** `_remaining`: seconds left as last computed. */
    var remaining: nat
    /** `_is_running`. */
    var running: bool
    /** Whether `on_finished` holds a callback. */
    var hasFinishHook: bool
    /** `start_datetime`: the `datetime.now()` reading of the last start. Both
        clocks are read at the same instant, so it agrees with `startTime`. */
    var startDateTime: Option<real>

    ghost predicate Valid()
      reads this
    {
      && (startDateTime.Some? ==> startDateTime.value == startTime)
      && (startDateTime.None? ==> startTime == 0.0 && !running)
    }

    /** The state after construction and after `reset`. */
    predicate Pristine()
      reads this
    {
      !running && remaining == duration && startTime == 0.0 && startDateTime.None?
    }

    constructor (minutes: real, activity: string)
      requires minutes > 0.0
      ensures Valid() && Pristine()
      ensures ValidateDuration(minutes) == Success(duration)
      ensures this.activity == activity && !hasFinishHook
    {
      duration := Trunc(minutes * 60.0);
      this.activity := activity;
      startTime := 0.0;
      remaining := Trunc(minutes * 60.0);
      running := false;
      hasFinishHook := false;
      startDateTime := None;
    }

    /** The constructor with its error path: a duration that is not positive
        raises instead of producing a timer. */
    static method Create(minutes: real, activity: string) returns (r: Result<PomodoroTimer, DurationError>)
      ensures r.Failure? <==> minutes <= 0.0
      ensures r.Success? ==> fresh(r.value) && r.value.Valid() && r.value.Pristine()
      ensures r.Success? ==> ValidateDuration(minutes) == Success(r.value.duration)
      ensures r.Success? ==> r.value.activity == activity && !r.value.hasFinishHook
    {
      if minutes <= 0.0 {
        return Failure(NotPositive);
      }
      var t := new PomodoroTimer(minutes, activity);
      return Success(t);
    }

    /** Starting a running timer changes nothing; otherwise the countdown
        restarts from the full duration at `now` (a restart, not a resume). */
    method Start(now: real) returns (status: Status)
      requires Valid()
      modifies this`startTime, this`remaining, this`running, this`startDateTime
      ensures Valid()
      ensures old(running) ==> status.Text() == "already_started" && unchanged(this)
      ensures !old(running) ==> && status.Text() == "started" && running && remaining == duration
                                && startTime == now && startDateTime == Some(now)
    {
      if running {
        return AlreadyStarted;
      }
      startTime := now;
      remaining := duration;
      running := true;
      startDateTime := Some(now);
      return Started;
    }

    /** Stopping clears only the running flag; the remaining time stays as
        last computed. An idle timer is left alone. */
    method Stop() returns (status: Status)
      requires Valid()
      modifies this`running
      ensures Valid() && !running
      ensures status.Text() == if old(running) then "stopped" else "not_running"
    {
      if !running {
        return NotRunning;
      }
      running := false;
      return Stopped;
    }

    method Reset() returns (status: Status)
      requires Valid()
      modifies this`startTime, this`remaining, this`running, this`startDateTime
      ensures Valid() && Pristine() && status.Text() == "reset"
    {
      running := false;
      remaining := duration;
      startTime := 0.0;
      startDateTime := None;
      return Status.Reset;
    }

    /** `update` at clock reading `now`. Idle: nothing happens. Running: the
        remaining time becomes `RemainingAt` of the start reading and `now`,
        the timer keeps running, and `fired` reports that `on_finished` was
        called, which happens on every update that leaves zero behind. */
    method Update(now: real) returns (fired: bool)
      requires Valid()
      modifies this`remaining
      ensures Valid()
      ensures !old(running) ==> unchanged(this)
      ensures old(running) ==> remaining == RemainingAt(duration, startTime, now)
      ensures fired <==> old(running) && remaining == 0 && hasFinishHook
      ensures old(running) && startTime <= now ==> remaining <= duration
    {
      if !running {
        return false;
      }
      var exact := duration as real - (now - startTime);
      if exact <= 0.0 {
        remaining := 0;
      } else {
        remaining := Ceil(exact);
      }
      if startTime <= now {
        RemainingWithinDuration(duration, startTime, now);
      }
      fired := remaining == 0 && hasFinishHook;
    }

    /** `finished()`: the display reads `00:00` exactly when it holds. */
    predicate Finished()
      reads this
      ensures Finished() <==> FormatTime() == "00:00"
    {
      ClockRoundTrip(remaining);
      ClockRoundTrip(0);
      assert Pad2(0) == "00";
      assert FormatClock(0) == "00:00";
      assert FormatTime() == FormatClock(remaining);
      remaining == 0
    }

    /** `format_time()`: reads back as the remaining seconds, and is exactly
      five characters `MM:SS` below 100 minutes. */
    function FormatTime(): (s: string)
      reads this
      ensures ParseClock(s) == Some(remaining)
      ensures remaining < 6000 <==> |s| == 5
    {
      ClockRoundTrip(remaining);
      FormatClock(remaining)
    }

    /** `get_elapsed()` at clock reading `now`: whole seconds since the last
        start, truncated and capped at the duration; zero when never started
        since the last reset. */
    function GetElapsed(now: real): (e: int)
      reads this
      ensures e <= duration
      ensures startDateTime.None? ==> e == 0
      ensures startDateTime.Some? && startDateTime.value <= now ==>
                && 0 <= e && e as real <= now - startDateTime.value
                && (e == duration || now - startDateTime.value < e as real + 1.0)
    {
      match startDateTime
      case None => 0
      case Some(t) =>
        var elapsed := Trunc(now - t);
        if elapsed < duration then elapsed else duration
    }
  }

  /** The countdown the program's own tests describe, on a 5-second timer
      (1/12 minute) started at 100.0: 4 seconds left at 101.0, 1 at 104.9,
      finished at 105.0; a callback fires again on a later update, since the
      timer keeps running at zero. */
  method CountdownScenario()
  {
    var t := new PomodoroTimer(1.0 / 12.0, "Work");
    assert t.duration == 5;
    t.hasFinishHook := true;
    var s := t.Start(100.0);
    assert s.Text() == "started" && t.remaining == 5;
    var fired := t.Update(101.0);
    assert t.remaining == 4 && !fired;
    fired := t.Update(104.9);
    assert t.remaining == 1 && !fired;
    fired := t.Update(105.0);
    assert t.remaining == 0 && fired && t.running;
    fired := t.Update(105.0);
    assert fired;
    s := t.Stop();
    assert s.Text() == "stopped" && t.remaining == 0;
    s := t.Start(200.0);
    assert s.Text() == "started" && t.remaining == 5;
  }
}
