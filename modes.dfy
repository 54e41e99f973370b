/** The three modes both controllers cycle through, the rule they share for
    leaving a mode when its interval finishes naturally, and the rows they
    log when an interval concludes. */
module Modes {
  import opened Wrappers
  import opened Clock
  import opened Logger

  datatype Mode = Work | ShortBreak | LongBreak

  /** The keys and durations of the `MODES` tables: one key per mode, and
      the work interval is the longest, the short break the shortest. */
  lemma ModeTable(a: Mode, b: Mode)
    ensures Key(a) == Key(b) <==> a == b
    ensures DurationSeconds(ShortBreak) < DurationSeconds(LongBreak) < DurationSeconds(Work)
  {
  }

  /** The mode's key in the `MODES` tables: `"work"`, `"short_break"`,
      `"long_break"`. */
  function Key(m: Mode): (k: string)
    ensures k != "pomodoro"
  {
    match m
    case Work => "work"
    case ShortBreak => "short_break"
    case LongBreak => "long_break"
  }

  /** `MODES[m]["duration"]` in both controllers, in seconds: a positive
      whole number of minutes, so `_create_timer`'s `// 60` loses nothing and
      the timer it builds has exactly this many seconds. */
  function DurationSeconds(m: Mode): (d: nat)
    ensures 0 < d && d % 60 == 0
    ensures (d / 60) as real * 60.0 == d as real
  {
    match m
    case Work => 25 * 60
    case ShortBreak => 5 * 60
    case LongBreak => 15 * 60
  }

  /** The mode switch on a natural finish: leaving work counts one more
      completed interval and goes to the long break when the new count is a
      multiple of 4, else to the short break; every break leads back to work
      with the count unchanged. */
  function AdvanceOnFinish(m: Mode, count: nat): (next: (Mode, nat))
    ensures m == Work ==> next.1 == count + 1 && next.0 != Work && (next.0 == LongBreak <==> next.1 % 4 == 0)
    ensures m != Work ==> next == (Work, count)
  {
    if m == Work then
      (if (count + 1) % 4 == 0 then LongBreak else ShortBreak, count + 1)
    else
      (Work, count)
  }

  /** The manual toggle of `PomodoroTUI.toggle_mode`: work goes to the
      short break, never to the long break, and either break goes back to
      work. */
  function Toggled(m: Mode): (next: Mode)
    ensures next != LongBreak
    ensures next == Work <==> m != Work
  {
    match m
    case Work => ShortBreak
    case ShortBreak => Work
    case LongBreak => Work
  }

  /** The state after `steps` natural finishes in a row. */
  function Run(m: Mode, count: nat, steps: nat): (Mode, nat)
    decreases steps
  {
    if steps == 0 then (m, count)
    else
      var next := AdvanceOnFinish(m, count);
      Run(next.0, next.1, steps - 1)
  }

  /** How many of those `steps` finishes enter the long break. */
  function LongBreaks(m: Mode, count: nat, steps: nat): nat
    decreases steps
  {
    if steps == 0 then 0
    else
      var next := AdvanceOnFinish(m, count);
      (if next.0 == LongBreak then 1 else 0) + LongBreaks(next.0, next.1, steps - 1)
  }

  /** After `k` work intervals and their breaks the cycle is back at work
      with `k` more completed intervals, and it has taken one long break for
      every multiple of 4 the count passed. */
  lemma {:induction false} CycleFromWork(count: nat, k: nat)
    ensures Run(Work, count, 2 * k) == (Work, count + k)
    ensures LongBreaks(Work, count, 2 * k) == (count + k) / 4 - count / 4
    decreases k
  {
    if k > 0 {
      var brk := AdvanceOnFinish(Work, count).0;
      CycleFromWork(count + 1, k - 1);
      assert Run(Work, count, 2 * k) == Run(brk, count + 1, 2 * k - 1);
      assert Run(brk, count + 1, 2 * k - 1) == Run(Work, count + 1, 2 * (k - 1));
      assert LongBreaks(brk, count + 1, 2 * k - 1) == LongBreaks(Work, count + 1, 2 * (k - 1));
      assert (count + 1) / 4 - count / 4 == if (count + 1) % 4 == 0 then 1 else 0;
    }
  }

  /** Any four consecutive work intervals that finish naturally are followed
      by exactly one long break. */
  lemma OneLongBreakPerFourWorkIntervals(count: nat)
    ensures LongBreaks(Work, count, 8) == 1
    ensures Run(Work, count, 8) == (Work, count + 4)
  {
    CycleFromWork(count, 4);
  }

  /** What either controller logs when an interval concludes, by finishing
      or by a toggle: one row when the interval was started (the
      `if self.session_start:` guard of both controllers), none otherwise. */
  function Conclude(sessionStart: Option<Moment>, activity: string, sessionType: string,
                    durationMinutes: int, end: Moment, completed: bool): (rows: seq<Row>)
    ensures |rows| == (if sessionStart.Some? then 1 else 0)
    ensures sessionStart.Some? ==> rows[0].date == sessionStart.value.date && rows[0].endTime == end.clock
    ensures sessionStart.Some? ==> (rows[0].completed == "Yes" <==> completed)
  {
    if sessionStart.Some? then [MakeRow(activity, sessionType, durationMinutes, sessionStart.value, end, completed)]
    else []
  }
}
