/** The alternative controller, `PomodoroApp` of src/pomo_app.py, which the
    application does not use. Its rules differ from `PomodoroTUI`: a manual
    toggle goes through the same mode switch as a natural finish and so
    counts a work interval, the count starts at zero instead of being read
    from the log, the start moment survives a reset and a natural finish,
    and work intervals are logged with the type `"work"`. */
module PomoApp {
  import opened Wrappers
  import opened Clock
  import opened PyStr
  import opened Modes
  import opened Pomo
  import opened Logger
  import Tui

  /** `MODES[m]["name"]`: the activity a new timer starts with. */
  function Name(m: Mode): string {
    match m
    case Work => "Pomodoro"
    case ShortBreak => "Short Break"
    case LongBreak => "Long Break"
  }

  /** This controller's `MODES` table: the names tell the three modes apart,
      and they differ from the other controller's names. */
  lemma ModeTable(a: Mode, b: Mode)
    ensures Name(a) == Name(b) <==> a == b
    ensures Name(a) != Tui.Name(b)
  {
  }

  /** Rows this controller logs use the mode key as their type, so none of
      them is ever counted by `get_session_count`, which looks for
      `"pomodoro"`. */
  lemma LoggedRowsNeverCount(m: Mode, rows: seq<Row>, activity: string, durationMinutes: int,
                             start: Moment, end: Moment, completed: bool, day: string)
    ensures CountCompleted(rows + [MakeRow(activity, Key(m), durationMinutes, start, end, completed)], day)
            == CountCompleted(rows, day)
  {
    CountAfterAppend(rows, MakeRow(activity, Key(m), durationMinutes, start, end, completed), day);
  }

  /** A manual toggle here is the natural-finish switch, unlike the
      `PomodoroTUI.toggle_mode`, which keeps the count: the two agree
      on the next mode except when leaving work completes a multiple of 4,
      and this one counts every toggle out of work. */
  lemma ToggleDiffersFromTui(m: Mode, count: nat)
    ensures AdvanceOnFinish(m, count).0 == Toggled(m) <==> !(m == Work && (count + 1) % 4 == 0)
    ensures AdvanceOnFinish(m, count).1 == count + (if m == Work then 1 else 0)
  {
  }

  class PomodoroApp {
    const logger: SessionLogger
    var currentMode: Mode
    var sessionCount: nat
    var timer: PomodoroTimer
    var sessionStart: Option<Moment>
    /** `is_break`: set at start-up and never read or changed afterwards. */
    const isBreak: bool

    ghost predicate Valid()
      reads this, timer
    {
      timer.Valid() && timer.hasFinishHook && timer.duration == DurationSeconds(currentMode)
    }

    /** A new idle timer for the current mode replaces the old one. */
    twostate predicate Renewed()
      reads this, timer
    {
      fresh(timer) && timer.Pristine() && timer.activity == Name(currentMode)
    }

    /** Start-up: the count starts at zero whatever the log holds. */
    constructor (existingLog: Option<seq<Row>>)
      ensures Valid() && fresh(logger) && fresh(timer)
      ensures logger.rows == if existingLog.Some? then existingLog.value else []
      ensures currentMode == Work && sessionCount == 0 && sessionStart == None && !isBreak
      ensures timer.Pristine() && timer.activity == Name(Work)
    {
      var log := new SessionLogger(existingLog);
      logger := log;
      currentMode := Work;
      sessionCount := 0;
      var t := CreateTimer(Work);
      timer := t;
      sessionStart := None;
      isBreak := false;
    }

    /** `_create_timer`: 25, 5 or 15 minutes by mode, named after the mode,
        with the finish callback wired to the controller. */
    static method CreateTimer(mode: Mode) returns (t: PomodoroTimer)
      ensures fresh(t) && t.Valid() && t.Pristine() && t.hasFinishHook
      ensures t.duration == DurationSeconds(mode) && t.activity == Name(mode)
    {
      var minutes := DurationSeconds(mode) / 60;
      t := new PomodoroTimer(minutes as real, Name(mode));
      t.hasFinishHook := true;
    }

    /** `_switch_mode`: leaving work counts one interval and goes to the long
        break on every fourth, else to the short break; a break goes to work. */
    method SwitchMode()
      modifies this`currentMode, this`sessionCount
      ensures (currentMode, sessionCount) == AdvanceOnFinish(old(currentMode), old(sessionCount))
    {
      if currentMode == Work {
        sessionCount := sessionCount + 1;
        if sessionCount % 4 == 0 {
          currentMode := LongBreak;
        } else {
          currentMode := ShortBreak;
        }
      } else {
        currentMode := Work;
      }
    }

    /** `_on_timer_finished`: logs the interval as completed, under its mode
        key, when it was started; switches mode and renews the timer, but
        keeps the start moment. */
    method OnTimerFinished(now: Moment)
      requires Valid()
      modifies this, logger
      ensures Valid() && Renewed()
      ensures logger.rows == old(logger.rows)
                + Conclude(old(sessionStart), old(timer.activity), Key(old(currentMode)), old(timer.duration), now, true)
      ensures (currentMode, sessionCount) == AdvanceOnFinish(old(currentMode), old(sessionCount))
      ensures sessionStart == old(sessionStart)
    {
      if sessionStart.Some? {
        logger.LogSession(timer.activity, Key(currentMode), timer.duration, sessionStart.value, now, true);
      }
      SwitchMode();
      timer := CreateTimer(currentMode);
    }

    /** `set_activity`: whitespace-only text is ignored; any other text is
        stored as given. */
    method SetActivity(activity: string)
      requires Valid()
      modifies timer`activity
      ensures Valid()
      ensures timer.activity == if AllSpace(activity) then old(timer.activity) else activity
    {
      if Strip(activity) != [] {
        timer.activity := activity;
      }
    }

    /** `start_timer`: always asks the timer to start, which does nothing if
        it already runs, and always overwrites the start moment. */
    method StartTimer(now: Moment)
      requires Valid()
      modifies this`sessionStart, timer`startTime, timer`remaining, timer`running, timer`startDateTime
      ensures Valid() && timer.running && sessionStart == Some(now)
      ensures old(timer.running) ==> unchanged(timer)
      ensures !old(timer.running) ==> timer.remaining == timer.duration && timer.startTime == now.epoch
    {
      var _ := timer.Start(now.epoch);
      sessionStart := Some(now);
    }

    /** `pause_timer`: delegates to the timer's `stop`, which leaves an idle
        timer alone and keeps the remaining time. */
    method PauseTimer()
      requires Valid()
      modifies timer`running
      ensures Valid() && !timer.running
    {
      var _ := timer.Stop();
    }

    /** `reset_timer`: delegates to the timer's `reset`; the start moment,
        mode and count stay as they are. */
    method ResetTimer()
      requires Valid()
      modifies timer`startTime, timer`remaining, timer`running, timer`startDateTime
      ensures Valid() && timer.Pristine()
    {
      var _ := timer.Reset();
    }

    /** `toggle_break`: an interval that was started and is still running is
        logged as abandoned; then the same mode switch as a natural finish
        (counting a work interval), a new timer, and the start moment cleared. */
    method ToggleBreak(now: Moment)
      requires Valid()
      modifies this, logger
      ensures Valid() && Renewed() && sessionStart == None
      ensures logger.rows == old(logger.rows)
                + (if old(timer.running)
                   then Conclude(old(sessionStart), old(timer.activity), Key(old(currentMode)), old(timer.duration), now, false)
                   else [])
      ensures (currentMode, sessionCount) == AdvanceOnFinish(old(currentMode), old(sessionCount))
    {
      if sessionStart.Some? && timer.running {
        logger.LogSession(timer.activity, Key(currentMode), timer.duration, sessionStart.value, now, false);
      }
      SwitchMode();
      timer := CreateTimer(currentMode);
      sessionStart := None;
    }
  }

  /** Three toggles out of work and back leave this controller's count at
      three, where the other controller's would still be zero, and the
      fourth toggle out of work lands on the long break; `is_break` keeps its
      start-up value throughout. */
  method ToggleCountsScenario(now: Moment)
  {
    var app := new PomodoroApp(None);
    app.ToggleBreak(now);
    app.ToggleBreak(now);
    app.ToggleBreak(now);
    app.ToggleBreak(now);
    app.ToggleBreak(now);
    app.ToggleBreak(now);
    assert app.currentMode == Work && app.sessionCount == 3;
    app.ToggleBreak(now);
    assert app.currentMode == LongBreak && app.sessionCount == 4;
    assert app.logger.rows == [];
    app.OnTimerFinished(now);
    assert !app.isBreak;
  }
}
