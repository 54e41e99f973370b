/** The session log, `SessionLogger` of src/logger.py.

    The CSV file is an append-only sequence of rows held in the logger; each
    row has the seven columns of the file. Dates and times are the strftime
    renderings carried by the injected `Moment`s. */
module Logger {
  import opened Wrappers
  import opened Clock

  /** One CSV row: date, activity, session_type, duration_minutes,
      start_time, end_time, completed. */
  datatype Row = Row(
    date: string,
    activity: string,
    sessionType: string,
    durationMinutes: int,
    startTime: string,
    endTime: string,
    completed: string)

  /** The row `log_session` builds from its arguments. */
  function MakeRow(activity: string, sessionType: string, durationMinutes: int,
                   start: Moment, end: Moment, completed: bool): (r: Row)
    ensures r.date == start.date && r.startTime == start.clock && r.endTime == end.clock
    ensures r.completed == "Yes" || r.completed == "No"
    ensures r.completed == "Yes" <==> completed
    ensures r.activity == activity && r.sessionType == sessionType && r.durationMinutes == durationMinutes
  {
    Row(start.date, activity, sessionType, durationMinutes, start.clock, end.clock,
        if completed then "Yes" else "No")
  }

  /** The filter of `get_session_count`: a completed `"pomodoro"` row of `day`. */
  predicate CountsFor(row: Row, day: string) {
    row.date == day && row.sessionType == "pomodoro" && row.completed == "Yes"
  }

  /** A freshly logged row is counted for `day` exactly when it was a
      completed `"pomodoro"` interval that started on `day`. */
  lemma MadeRowCounts(activity: string, sessionType: string, durationMinutes: int,
                      start: Moment, end: Moment, completed: bool, day: string)
    ensures CountsFor(MakeRow(activity, sessionType, durationMinutes, start, end, completed), day)
            <==> completed && sessionType == "pomodoro" && start.date == day
  {
  }

  /** The number of rows of `rows` that count for `day`. */
  function CountCompleted(rows: seq<Row>, day: string): (n: nat)
    ensures n <= |rows|
  {
    if rows == [] then 0
    else CountCompleted(rows[..|rows| - 1], day) + (if CountsFor(rows[|rows| - 1], day) then 1 else 0)
  }

  /** Counting distributes over a split of the log. */
  lemma {:induction false} CountConcat(a: seq<Row>, b: seq<Row>, day: string)
    ensures CountCompleted(a + b, day) == CountCompleted(a, day) + CountCompleted(b, day)
    decreases |b|
  {
    if b == [] {
      assert a + b == a;
    } else {
      CountConcat(a, b[..|b| - 1], day);
      assert (a + b)[..|a + b| - 1] == a + b[..|b| - 1];
    }
  }

  /** The count is the number of qualifying rows: it is zero exactly when no
      row qualifies, and the whole log exactly when every row does. */
  lemma {:induction false} CountExtremes(rows: seq<Row>, day: string)
    ensures CountCompleted(rows, day) == 0 <==> forall i :: 0 <= i < |rows| ==> !CountsFor(rows[i], day)
    ensures CountCompleted(rows, day) == |rows| <==> forall i :: 0 <= i < |rows| ==> CountsFor(rows[i], day)
  {
    if rows != [] {
      var init := rows[..|rows| - 1];
      CountExtremes(init, day);
      assert forall i :: 0 <= i < |init| ==> init[i] == rows[i];
    }
  }

  /** Appending a row raises the count by one if the row qualifies and
      leaves it unchanged otherwise. */
  lemma {:induction false} CountAfterAppend(rows: seq<Row>, row: Row, day: string)
    ensures CountCompleted(rows + [row], day) == CountCompleted(rows, day) + (if CountsFor(row, day) then 1 else 0)
  {
    assert (rows + [row])[..|rows|] == rows;
  }

  class SessionLogger {
    /** The rows of the CSV file, oldest first. */
    var rows: seq<Row>

    /** Opening the log: the file's existing rows are kept as they are; a
        missing file is created with only its header. */
    constructor (existing: Option<seq<Row>>)
      ensures rows == if existing.Some? then existing.value else []
    {
      rows := if existing.Some? then existing.value else [];
    }

    /** `log_session`: appends exactly one row and keeps every earlier row. */
    method LogSession(activity: string, sessionType: string, durationMinutes: int,
                      start: Moment, end: Moment, completed: bool)
      modifies this
      ensures rows == old(rows) + [MakeRow(activity, sessionType, durationMinutes, start, end, completed)]
    {
      var row := MakeRow(activity, sessionType, durationMinutes, start, end, completed);
      rows := rows + [row];
    }

    /** `get_session_count`: the qualifying rows of `date`, or of the day of
        `now` when no date is given. */
    method GetSessionCount(date: Option<Moment>, now: Moment) returns (count: nat)
      ensures count == CountCompleted(rows, if date.Some? then date.value.date else now.date)
    {
      var day := if date.Some? then date.value else now;
      var target := day.date;
      count := 0;
      var i := 0;
      while i < |rows|
        invariant 0 <= i <= |rows|
        invariant count == CountCompleted(rows[..i], target)
      {
        var row := rows[i];
        assert rows[..i + 1] == rows[..i] + [row];
        CountAfterAppend(rows[..i], row, target);
        if row.date == target && row.sessionType == "pomodoro" && row.completed == "Yes" {
          count := count + 1;
        }
        i := i + 1;
      }
      assert rows[..i] == rows;
    }
  }
}
