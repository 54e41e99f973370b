/** The cycle controller the application drives, `PomodoroTUI` of src/tui.py.

    It owns the current mode, the count of work intervals completed today,
    the live timer and the moment the current interval was started. A long
    break follows every fourth work interval that finishes naturally; a
    manual toggle never counts. Concluded intervals go to the session log. */
module Tui {
  import opened Wrappers
  import opened Clock
  import opened PyStr
  import opened Modes
  import opened Pomo
  import opened Logger

  /** `MODES[m]["name"]`: the activity a new timer starts with. */
  function Name(m: Mode): string {
    match m
    case Work => "POMODORO"
    case ShortBreak => "SHORT BREAK"
    case LongBreak => "LONG BREAK"
  }

  /** `MODES[m]["type"]`: the session type logged for an interval of `m`. */
  function SessionType(m: Mode): (t: string)
    ensures t == "pomodoro" <==> m == Work
  {
    match m
    case Work => "pomodoro"
    case ShortBreak => "short_break"
    case LongBreak => "long_break"
  }

  /** This controller's `MODES` table: the names and the logged types tell
      the three modes apart, and only work is logged as `"pomodoro"`. */
  lemma ModeTable(a: Mode, b: Mode)
    ensures Name(a) == Name(b) <==> a == b
    ensures SessionType(a) == SessionType(b) <==> a == b
    ensures SessionType(a) == "pomodoro" <==> a == Work
  {
  }

  /** Only work intervals are logged with the type the daily count looks for. */
  lemma OnlyWorkIsCounted(m: Mode, rows: seq<Row>, activity: string, durationMinutes: int,
                          start: Moment, end: Moment, completed: bool)
    ensures CountCompleted(rows + [MakeRow(activity, SessionType(m), durationMinutes, start, end, completed)], start.date)
            == CountCompleted(rows, start.date) + (if m == Work && completed then 1 else 0)
  {
    CountAfterAppend(rows, MakeRow(activity, SessionType(m), durationMinutes, start, end, completed), start.date);
  }

  class PomodoroTUI {
    const logger: SessionLogger
    var currentMode: Mode
    /** Work intervals completed today. */
    var sessionCount: nat
    var timer: PomodoroTimer
    /** When the current interval was started; None when not started since
        the last reset or mode change. */
    var sessionStart: Option<Moment>

    /** The live timer belongs to the current mode and reports its finish to
        the controller. */
    ghost predicate Valid()
      reads this, timer
    {
      timer.Valid() && timer.hasFinishHook && timer.duration == DurationSeconds(currentMode)
    }

    /** An interval concluded at `now`: its row, when `logged` and it was
        started, is appended with the given outcome, a new idle timer for the
        new mode replaces the old one, and the start moment is cleared. */
    twostate predicate Concluded(now: Moment, completed: bool, logged: bool)
      reads this, timer, logger
    {
      && logger.rows == old(logger.rows)
           + (if logged then Conclude(old(sessionStart), old(timer.activity), SessionType(old(currentMode)),
                                      old(timer.duration), now, completed)
              else [])
      && fresh(timer) && timer.Pristine() && timer.activity == Name(currentMode)
      && sessionStart == None
    }

    /** Start-up: the log is opened, the count is seeded with today's
        completed work intervals, and an idle work timer is created. */
    constructor (existingLog: Option<seq<Row>>, now: Moment)
      ensures Valid() && fresh(logger) && fresh(timer)
      ensures logger.rows == if existingLog.Some? then existingLog.value else []
      ensures currentMode == Work && sessionStart == None
      ensures sessionCount == CountCompleted(logger.rows, now.date)
      ensures timer.Pristine() && timer.activity == Name(Work)
    {
      var log := new SessionLogger(existingLog);
      logger := log;
      currentMode := Work;
      var count := log.GetSessionCount(None, now);
      sessionCount := count;
      var t := CreateTimer(Work);
      timer := t;
      sessionStart := None;
    }

    /** `_create_timer`: 25, 5 or 15 minutes by mode, named after the mode,
        with the finish callback wired to the controller. */
    static method CreateTimer(mode: Mode) returns (t: PomodoroTimer)
      ensures fresh(t) && t.Valid() && t.Pristine() && t.hasFinishHook
      ensures t.duration == DurationSeconds(mode) && t.activity == Name(mode)
    {
      var minutes := DurationSeconds(mode) / 60;
      t := new PomodoroTimer(minutes as real, Name(mode));
      t.hasFinishHook := true;
    }

    /** `_on_timer_finished`: logs the interval as completed when it was
        started, advances the mode (counting a finished work interval), and
        starts over with a new idle timer. */
    method OnTimerFinished(now: Moment)
      requires Valid()
      modifies this, logger
      ensures Valid() && Concluded(now, true, true)
      ensures (currentMode, sessionCount) == AdvanceOnFinish(old(currentMode), old(sessionCount))
    {
      if sessionStart.Some? {
        logger.LogSession(timer.activity, SessionType(currentMode), timer.duration,
                          sessionStart.value, now, true);
      }
      if currentMode == Work {
        sessionCount := sessionCount + 1;
        if sessionCount % 4 == 0 {
          currentMode := LongBreak;
        } else {
          currentMode := ShortBreak;
        }
      } else {
        currentMode := Work;
      }
      timer := CreateTimer(currentMode);
      sessionStart := None;
    }

    /** `start_timer`: nothing while the timer runs; otherwise the timer
        restarts at `now` and the interval's start moment is recorded. */
    method StartTimer(now: Moment)
      requires Valid()
      modifies this`sessionStart, timer`startTime, timer`remaining, timer`running, timer`startDateTime
      ensures Valid()
      ensures old(timer.running) ==> unchanged(timer) && sessionStart == old(sessionStart)
      ensures !old(timer.running) ==> && timer.running && timer.remaining == timer.duration
                                      && timer.startTime == now.epoch && sessionStart == Some(now)
    {
      if !timer.running {
        var _ := timer.Start(now.epoch);
        sessionStart := Some(now);
      }
    }

    /** `pause_timer`: stops a running timer; its remaining time is kept. */
    method PauseTimer()
      requires Valid()
      modifies timer`running
      ensures Valid() && !timer.running
    {
      if timer.running {
        var _ := timer.Stop();
      }
    }

    /** `reset_timer`: the timer goes back to its full duration, idle, and
        the interval's start moment is cleared; mode and count stay. */
    method ResetTimer()
      requires Valid()
      modifies this`sessionStart, timer`startTime, timer`remaining, timer`running, timer`startDateTime
      ensures Valid() && timer.Pristine() && sessionStart == None
    {
      var _ := timer.Reset();
      sessionStart := None;
    }

    /** `toggle_mode`: an interval that was started and is still running is
        logged as abandoned; the mode toggles without touching the count, and
        a new idle timer replaces the old one. */
    method ToggleMode(now: Moment)
      requires Valid()
      modifies this, logger
      ensures Valid() && Concluded(now, false, old(timer.running))
      ensures currentMode == Toggled(old(currentMode)) && sessionCount == old(sessionCount)
    {
      if sessionStart.Some? && timer.running {
        logger.LogSession(timer.activity, SessionType(currentMode), timer.duration,
                          sessionStart.value, now, false);
      }
      if currentMode == Work {
        currentMode := ShortBreak;
      } else if currentMode == ShortBreak {
        currentMode := Work;
      } else {
        currentMode := Work;
      }
      timer := CreateTimer(currentMode);
      sessionStart := None;
    }

    /** `set_activity`: whitespace-only text is ignored; any other text is
        stored as given, untrimmed. */
    method SetActivity(activity: string)
      requires Valid()
      modifies timer`activity
      ensures Valid()
      ensures timer.activity == if AllSpace(activity) then old(timer.activity) else activity
    {
      if Strip(activity) != [] {
        timer.activity := activity;
      }
    }

    /** `update_timer` at `now`: nothing while the timer is idle. A running
        timer takes its new remaining time; when that is zero the finish
        callback concludes the interval as completed and advances the mode. */
    method UpdateTimer(now: Moment)
      requires Valid()
      modifies this, timer`remaining, logger
      ensures Valid()
      ensures !old(timer.running) ==> unchanged(this, logger) && unchanged(timer)
      ensures old(timer.running) ==>
                var r := RemainingAt(old(timer.duration), old(timer.startTime), now.epoch);
                if r == 0 then
                  Concluded(now, true, true)
                  && (currentMode, sessionCount) == AdvanceOnFinish(old(currentMode), old(sessionCount))
                else
                  timer == old(timer) && timer.running && timer.remaining == r && unchanged(this, logger)
    {
      if timer.running {
        var fired := timer.Update(now.epoch);
        if fired {
          OnTimerFinished(now);
        }
      }
    }
  }

  /** A work interval run to its end is logged once as completed and moves
      to the short break; the idle timer that replaces it ignores further
      updates. */
  method SingleFinishScenario(m0: Moment, m1: Moment, m2: Moment)
    requires m0.epoch + 1500.0 <= m1.epoch
  {
    var app := new PomodoroTUI(None, m0);
    assert app.sessionCount == 0;
    app.StartTimer(m0);
    app.UpdateTimer(m1);
    assert app.currentMode == ShortBreak && app.sessionCount == 1;
    assert app.logger.rows == [MakeRow("POMODORO", "pomodoro", 1500, m0, m1, true)];
    app.UpdateTimer(m2);
    assert |app.logger.rows| == 1;
  }

  /** With three work intervals already completed today, the next one that
      finishes leads to the long break; toggling out of work instead leads to
      the short break and counts nothing. */
  method FourthIntervalScenario(m0: Moment, m1: Moment)
    requires m0.epoch + 1500.0 <= m1.epoch
  {
    var done := MakeRow("Coding", "pomodoro", 1500, m0, m0, true);
    CountExtremes([done, done, done], m0.date);
    var a := new PomodoroTUI(Some([done, done, done]), m0);
    assert a.sessionCount == 3;
    a.StartTimer(m0);
    a.UpdateTimer(m1);
    assert a.currentMode == LongBreak && a.sessionCount == 4;

    var b := new PomodoroTUI(Some([done, done, done]), m0);
    b.StartTimer(m0);
    b.ToggleMode(m1);
    assert b.currentMode == ShortBreak && b.sessionCount == 3;
    assert b.logger.rows[3].completed == "No";
  }
}
