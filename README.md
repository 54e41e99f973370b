# Pomodoro timer core, modelled in Dafny

This project models the core of a terminal Pomodoro timer. The timer counts
down a work interval, then a short break. Every fourth work interval that
finishes naturally is followed by a long break instead. Each concluded
interval is written to a CSV session log. The model covers five parts of the
program:

- **Countdown engine** (`Pomo`, src/pomo.py). `PomodoroTimer` is a class
  whose `Start`, `Stop`, `Reset` and `Update` change its fields in place.
  `Update` recomputes the remaining time from the absolute start reading
  (`RemainingAt`): the exact remainder rounded up, or zero once the deadline
  has passed. It is never decremented a tick at a time. The `on_finished`
  callback is the field `hasFinishHook` plus the `fired` result of `Update`.
- **Cycle controller** (`Tui`, src/tui.py). `PomodoroTUI` is the controller
  the application drives. It owns the mode, today's count of completed work
  intervals (seeded from the log), the live timer and the moment the current
  interval was started. A natural finish logs a completed row and advances
  the mode. A manual toggle logs a running interval as abandoned and never
  counts.
- **Alternative controller** (`PomoApp`, src/pomo_app.py). `PomodoroApp` is
  unused by the application and follows different rules. A toggle goes
  through the same switch as a natural finish, so it counts. The count starts
  at zero. The start moment survives a reset and a finish. Work rows are
  typed `"work"`, so the daily count never sees them.
- **Mode rules** (`Modes`). These are the rules both controllers share: the
  durations, the natural-finish switch, the TUI's toggle, and the row a
  concluded interval logs (`Conclude`, the `if self.session_start:` guard). `CycleFromWork`
  proves that the cycle takes one long break per multiple of 4 work
  intervals.
- **Session log** (`Logger`, src/logger.py). `SessionLogger` holds the CSV
  file as an append-only `seq<Row>`. `GetSessionCount` loops over the rows
  and is proved equal to `CountCompleted`.
- **ASCII digits** (`AsciiArt`, src/utils/__init__.py). This is the
  `DIGITS` table, `AsciiTime.update_time` (two loops, proved equal to
  `Render`) and `time_to_ascii`.

Supporting modules:

- `PyStr` models the Python string operations the core calls: `str.strip`,
  `str.join` and `f"{n:02d}"`. The program never splits or parses strings.
  `Split` and `ParseDecimal` are this model's own inverses of `Join` and of
  the decimal rendering. They are used only to state round trips such as
  `RenderShape` and `ClockRoundTrip`.
- `Clock` holds `Moment`, an injected clock reading. It carries the epoch
  seconds and the `strftime` date and time renderings.
- `Wrappers` holds `Option` and `Result`.

The clock is never read. Every operation that reads `time.time()` or
`datetime.now()` takes the reading as a parameter instead: a `real` for the
timer and a `Moment` for the controllers. The methods `CountdownScenario`,
`SingleFinishScenario`, `FourthIntervalScenario` and `ToggleCountsScenario`
are clients. They use the contracts to prove concrete runs, such as the
countdown 5, 4, 1, 0 and the long break after a fourth interval.

Behaviour as the code has it, where a reader might expect otherwise:

- A positive duration below 1/60 minute truncates to a timer of 0 seconds
  (`SubSecondDurationTruncatesToZero`). The test at src/pomo.py:46 only
  rejects durations that are zero or negative. Non-finite durations and
  durations too large for floats fail later, at `int()` (see "Left out").
- `update` never stops the timer. Each update of a running timer at zero
  fires the callback again (`CountdownScenario`). Both controllers replace
  the timer inside the callback. So in the application, an interval is
  concluded once (`SingleFinishScenario`).
- `start` always restarts from the full duration. A paused timer does not
  resume.
- Both controllers log `duration_minutes` as `timer.duration`, which is in
  seconds (1500 for a work interval).
- The program's own tests treat the timer's duration as seconds. The code
  treats it as minutes, and the model follows the code.

## Model

| member | source | states |
|---|---|---|
| Pomo.ValidateDuration | src/pomo.py:44-50 | a duration is refused exactly when it is not positive; otherwise the stored seconds are minutes*60 truncated |
| Pomo.SubSecondDurationTruncatesToZero | src/pomo.py:46-50 | 0.01 minutes is accepted and gives 0 seconds; 25 minutes gives 1500; 0 is refused |
| Pomo.Ceil | src/pomo.py:128 | `math.ceil`: the least integer not below x |
| Pomo.Trunc | src/pomo.py:50 | `int()` on a real: rounds toward zero, for both signs |
| Pomo.RemainingAt | src/pomo.py:121-128 | the remaining time is zero exactly when the elapsed time reaches the duration; otherwise it is the exact remainder rounded up |
| Pomo.RemainingWithinDuration | src/pomo.py:122-128 | when the clock has not gone back, the remaining time is at most the duration |
| Pomo.RemainingNonIncreasing | src/pomo.py:122-128 | the remaining time never grows as the clock advances |
| Pomo.RemainingDependsOnElapsedOnly | src/pomo.py:121-123 | the remaining time depends only on now minus start, not on earlier updates |
| Pomo.FormatClock | src/pomo.py:159-161 | minutes, a colon and two digits of seconds; exactly five characters `MM:SS` below 100 minutes |
| Pomo.ClockRoundTrip | src/pomo.py:159-161 | `MM:SS` reads back as minutes*60+seconds equal to the remaining seconds, with seconds below 60 |
| Pomo.ClockCanonical | src/pomo.py:159-161 | the parser accepts only renderings: anything it reads as n is exactly the rendering of n, so zero-padded minutes such as `0025:00` are excluded |
| Pomo.StatusTextsDistinct | src/pomo.py:66-98 | the five status strings `started`, `already_started`, `stopped`, `not_running`, `reset` are pairwise different |
| Pomo.LongDurationsShowThreeDigitMinutes | src/pomo.py:159-161 | 6000 s renders as `100:00`: the minutes are not limited to two digits |
| Pomo.PomodoroTimer.constructor | src/pomo.py:30-56 | a new timer is idle, has remaining == duration == the validated seconds, its activity, and no callback |
| Pomo.PomodoroTimer.Create | src/pomo.py:44-56 | construction fails exactly for a duration that is not positive |
| Pomo.PomodoroTimer.Start | src/pomo.py:66-72 | a running timer returns already_started and nothing changes; otherwise it restarts from the full duration at now and returns started |
| Pomo.PomodoroTimer.Stop | src/pomo.py:82-85 | only the running flag is cleared, remaining is frozen; returns stopped or not_running |
| Pomo.PomodoroTimer.Reset | src/pomo.py:94-98 | from any state: idle, remaining == duration, start 0.0, no start datetime; returns reset |
| Pomo.PomodoroTimer.Update | src/pomo.py:118-132 | no-op when idle; running: remaining becomes RemainingAt of start and now, the timer stays running, and the callback fires exactly when remaining is 0 and a callback is set |
| Pomo.PomodoroTimer.Finished | src/pomo.py:141 | finished holds exactly when the display reads `00:00` |
| Pomo.PomodoroTimer.FormatTime | src/pomo.py:159-161 | the rendering reads back as the remaining seconds (and, by ClockCanonical, is the only string that does); it has exactly five characters below 100 minutes |
| Pomo.PomodoroTimer.GetElapsed | src/pomo.py:170-173 | 0 when never started; otherwise truncated seconds since the start, capped at the duration |
| PyStr.Strip | src/tui.py:190 | `strip()` is empty exactly when the text is all whitespace |
| PyStr.Pad2 | src/pomo.py:161 | `02d` gives at least two digits, exactly two below 100, with a leading zero exactly below 10, that read back as n |
| PyStr.Pad2Canonical | src/pomo.py:161 | any digit string of length two, or longer without a leading zero, is the `02d` rendering of its value |
| PyStr.JoinAvoids | src/utils/__init__.py:107-109 | `join` adds no character that is in neither the separator nor the parts |
| PyStr.SplitJoin | src/utils/__init__.py:109 | splitting a newline-join of newline-free lines gives back the lines |
| Logger.MakeRow | src/logger.py:53-61 | the row is dated from the start, carries the start and end times of day and the arguments as given, and reads `Yes` exactly for a completed session, `No` otherwise |
| Logger.MadeRowCounts | src/logger.py:82-84 | a logged row counts for a day exactly when it is a completed pomodoro started that day |
| Logger.CountCompleted | src/logger.py:75-87 | the daily count never exceeds the number of rows |
| Logger.CountConcat | src/logger.py:76-87 | the count of a log is the sum of the counts of its parts |
| Logger.CountExtremes | src/logger.py:82-85 | the count is 0 exactly when no row qualifies, and the whole log exactly when every row does |
| Logger.CountAfterAppend | src/logger.py:63-65 | appending a qualifying row adds exactly 1 to the count; any other row adds nothing |
| Modes.Conclude | src/tui.py:121-129 | a concluded interval adds one row when it was started and none otherwise; the row's date is the start's, and completed is Yes exactly for a completion |
| Logger.SessionLogger.constructor | src/logger.py:22-31 | existing rows are kept unchanged; a missing log starts empty |
| Logger.SessionLogger.LogSession | src/logger.py:53-65 | exactly one row is appended and every earlier row is kept |
| Logger.SessionLogger.GetSessionCount | src/logger.py:67-87 | the loop's count equals CountCompleted for the given date, or for today when none is given |
| Modes.AdvanceOnFinish | src/tui.py:133-140 | leaving work adds 1 to the count and enters the long break exactly when the new count is a multiple of 4; a break goes to work with the count kept |
| Modes.Key | src/pomo_app.py:79-83 | no mode key is `"pomodoro"`, the type the daily count looks for |
| Modes.DurationSeconds | src/tui.py:91-99 | each duration is a positive whole number of minutes, so `// 60` then `* 60` gives it back |
| Modes.ModeTable | src/pomo_app.py:79-83 | the keys tell the modes apart; short break < long break < work |
| Modes.Toggled | src/tui.py:177-182 | the toggle never enters the long break, and enters work exactly when it leaves a break |
| Modes.CycleFromWork | src/tui.py:133-140 | k work/break cycles return to work with k more intervals and take (count+k)/4 - count/4 long breaks |
| Modes.OneLongBreakPerFourWorkIntervals | src/tui.py:133-140 | any four consecutive naturally finished work intervals are followed by exactly one long break |
| Tui.SessionType | src/tui.py:91-99 | a mode is logged as `"pomodoro"` exactly when it is work |
| Tui.ModeTable | src/tui.py:91-99 | names and logged types tell the three modes apart; only work is typed `"pomodoro"` |
| Tui.OnlyWorkIsCounted | src/tui.py:91-99 | a TUI row raises the daily count exactly when it is a completed work interval |
| Tui.PomodoroTUI.constructor | src/tui.py:101-106 | start-up is in work mode with no start moment; the count equals the log's count of today's completed pomodoros; the timer is an idle work timer |
| Tui.PomodoroTUI.CreateTimer | src/tui.py:110-117 | a new idle timer of 1500, 300 or 900 seconds, named after the mode, with the callback wired |
| Tui.PomodoroTUI.OnTimerFinished | src/tui.py:119-143 | a started interval is logged once as completed, the mode and count advance by AdvanceOnFinish, a new idle timer replaces the old one, and the start moment is cleared |
| Tui.PomodoroTUI.StartTimer | src/tui.py:145-150 | no-op while running; otherwise the timer restarts at now and the start moment is recorded |
| Tui.PomodoroTUI.PauseTimer | src/tui.py:152-156 | afterwards the timer is idle, with remaining, mode and count unchanged |
| Tui.PomodoroTUI.ResetTimer | src/tui.py:158-162 | the timer is back to its full duration and idle, and the start moment is cleared; mode and count unchanged |
| Tui.PomodoroTUI.ToggleMode | src/tui.py:164-185 | a started and running interval is logged as not completed; the mode toggles, the count is unchanged, the timer is new, and the start moment is cleared |
| Tui.PomodoroTUI.SetActivity | src/tui.py:188-192 | whitespace-only text is ignored; other text is stored untrimmed |
| Tui.PomodoroTUI.UpdateTimer | src/tui.py:194-197 | idle: nothing changes; running: the new remaining time, or at zero the completed-finish transition |
| PomoApp.ModeTable | src/pomo_app.py:79-83 | the names tell the three modes apart and differ from the TUI's names |
| PomoApp.LoggedRowsNeverCount | src/pomo_app.py:105-116 | rows typed by mode key never change the daily count |
| PomoApp.ToggleDiffersFromTui | src/pomo_app.py:151-166 | this toggle counts every exit from work; it differs in mode from the TUI toggle exactly when that exit completes a multiple of 4 |
| PomoApp.PomodoroApp.constructor | src/pomo_app.py:85-91 | start-up is in work mode with count 0 whatever the log holds, and no start moment |
| PomoApp.PomodoroApp.CreateTimer | src/pomo_app.py:93-103 | a new idle timer of the mode's duration, named after the mode, with the callback wired |
| PomoApp.PomodoroApp.SwitchMode | src/pomo_app.py:122-131 | the mode and count follow AdvanceOnFinish |
| PomoApp.PomodoroApp.OnTimerFinished | src/pomo_app.py:105-120 | a started interval is logged as completed under its mode key; the mode switches, the timer is renewed, and the start moment is kept |
| PomoApp.PomodoroApp.SetActivity | src/pomo_app.py:133-136 | whitespace-only text is ignored; other text is stored as given |
| PomoApp.PomodoroApp.StartTimer | src/pomo_app.py:138-141 | the timer runs afterwards and the start moment is overwritten, even when it already ran |
| PomoApp.PomodoroApp.PauseTimer | src/pomo_app.py:143-145 | the timer is idle afterwards, with remaining unchanged |
| PomoApp.PomodoroApp.ResetTimer | src/pomo_app.py:147-149 | the timer is reset; start moment, mode and count are unchanged |
| PomoApp.PomodoroApp.ToggleBreak | src/pomo_app.py:151-166 | a started and running interval is logged as not completed; mode and count follow AdvanceOnFinish; the timer is new and the start moment cleared |
| AsciiArt.GlyphShape | src/utils/__init__.py:5-83 | every glyph has exactly 5 lines, none containing a newline |
| AsciiArt.Lookup | src/utils/__init__.py:100-102 | lookup succeeds exactly when every character is in the table, giving each character's glyph in order; otherwise the error is the first unknown character |
| AsciiArt.LookupStopsAt | src/utils/__init__.py:101-102 | when every earlier character is in the table, the lookup raises at the first character that is not |
| AsciiArt.ZipHasTuple | src/utils/__init__.py:106 | zip yields a tuple at position j exactly when there is a glyph and every glyph has a line j |
| AsciiArt.ZipCount | src/utils/__init__.py:106 | zip yields as many tuples as the shortest glyph has lines, and none for no glyphs |
| AsciiArt.LineParts | src/utils/__init__.py:106 | the i-th zip tuple has one entry per glyph: line i of each, in order |
| AsciiArt.Lines | src/utils/__init__.py:105-107 | there are as many combined lines as zip yields tuples |
| AsciiArt.Render | src/utils/__init__.py:98-109 | rendering succeeds exactly when every character is in the table; a failure names a character of the input that is not |
| AsciiArt.RenderShape | src/utils/__init__.py:98-109 | a non-empty renderable input gives exactly 5 lines; line i is line i of each glyph, in order, joined with two spaces |
| AsciiArt.RenderEdges | src/utils/__init__.py:100-109 | the empty input renders as the empty string; an unknown character makes rendering fail |
| AsciiArt.AsciiTime.constructor | src/utils/__init__.py:90-91 | the input is stored and `time` starts empty |
| AsciiArt.AsciiTime.Create | src/utils/__init__.py:89-92 | construction fails exactly when Render does, with the character `update_time` stops at; otherwise the new object holds Render of the input |
| AsciiArt.AsciiTime.UpdateTime | src/utils/__init__.py:98-109 | the two loops store Render of the input; on an unknown character they stop with it and leave `time` as it was |
| AsciiArt.TimeToAscii | src/utils/__init__.py:116-126 | the result equals Render of the input: the picture, or the KeyError that construction raises |

## Left out

- Pomo.ValidateDuration: the model does not cover non-finite durations or durations whose `* 60` overflows. In the program, `inf`, and any float above about 3e306 (whose `* 60` overflows to `inf`), pass the test at src/pomo.py:46 and then make `int()` at src/pomo.py:50 raise `OverflowError`. A NaN passes that test too, and `int()` raises `ValueError`. Reals here are finite, so these inputs do not exist in the model.
- Default arguments are not modelled: every argument is passed explicitly. The defaults are `PomodoroTimer(duration=25, activity="Work")`, `AsciiTime(mm_ss="00:00")`, `log_session(completed=True)` and `SessionLogger(filepath="sessions.csv")`. No core caller relies on them.
- The Textual/rich view layer is not modelled: main.py, `TimerDisplay`, `HelpText` and `ActivityInput`, key bindings, CSS and the 0.1 s refresh. It is presentation and event plumbing. `AsciiTime.on_mount` and `__rich_console__` belong to it too.
- __main__.py is an entry point only and is not part of this model.
- loguru configuration and the `logger.info` calls have no effect on behaviour.
- The CSV file is an in-memory `seq<Row>`. Opening, reading, writing, quoting and the header row are not modelled. I/O failures, which would propagate from `open`, are not modelled either.
- Logger.SessionLogger.GetSessionCount: counting on a file deleted after start-up (zero) is not modelled. A missing file is modelled only at construction, where the log starts empty.
- `strftime` renderings are abstract strings carried by `Moment`. The model does not compute calendar dates.
- Python's `TypeError` for a non-numeric duration is not modelled, because the duration is typed `real`. The unused `seconds` parameter of `update` is dropped.
- Floating-point rounding of clock readings and of `minutes * 60` is not modelled: reals are exact.
- `time.time()` and `datetime.now()` are read at the same instant, so `start_datetime` equals `_start_time` in the model.
- `remaining()` and `is_running()` return the fields `remaining` and `running`, which callers read directly.
- `on_finished` can hold any callable in the program. The model only records whether the controller's callback is wired. The controller runs its finish handler when `Update` reports `fired`.
- PyStr.Strip: the contract states only whether anything is left and that the ends are not whitespace, not the exact slice kept, because the core uses only whether the result is empty.
