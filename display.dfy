/** The table part of `display_schedule`: each date's type, its hours and the
    sum of the hours of the seven days it starts. Colours, the text layout
    and the calendar grid are not part of this model. */
module Display {
  import opened Calendar
  import opened Planner
  import opened Solution

  /** The day types of `get_day_type`. */
  datatype DayType = Forced | Weekend | Holiday | Forbidden | Working | Free

  /** `get_day_type(d, hrs)`: forced days first, then weekends, holidays and
      disabled days, and the remaining days by their hours. */
  function GetDayType(d: Date, hrs: real, forced: set<Date>, holidays: set<Date>, disabled: set<Date>): (t: DayType)
    ensures t == Forced <==> d in forced
    ensures t == Weekend <==> d !in forced && Weekday(d) >= 5
    ensures t == Holiday <==> d !in forced && Weekday(d) < 5 && d in holidays
    ensures t == Forbidden <==> d !in forced && Weekday(d) < 5 && d !in holidays && d in disabled
    ensures (t == Weekend || t == Holiday || t == Forbidden) <==> d !in forced && !Feasible(d, holidays, disabled)
    ensures t == Working <==> d !in forced && Feasible(d, holidays, disabled) && hrs > 0.0
    ensures t == Free <==> d !in forced && Feasible(d, holidays, disabled) && hrs <= 0.0
  {
    var wday := Weekday(d);
    if d in forced then Forced
    else if wday >= 5 then Weekend
    else if d in holidays then Holiday
    else if d in disabled then Forbidden
    else if hrs > 0.0 then Working
    else Free
  }

  /** `schedule.get(d, 0)`. */
  function Get(schedule: map<Date, real>, d: Date): real {
    if d in schedule then schedule[d] else 0.0
  }

  /** `sum(schedule.get(x, 0) for x in s)`. */
  function SumOf(schedule: map<Date, real>, s: seq<Date>): real {
    if s == [] then 0.0 else Get(schedule, s[0]) + SumOf(schedule, s[1..])
  }

  /** The `Sum_of_next_7d` column of date d: the same window as the solver's constraint. */
  function SevenDaySum(schedule: map<Date, real>, ds: seq<Date>, d: Date): real {
    SumOf(schedule, Window(ds, d))
  }

  /** One row of the table. */
  datatype Row = Row(date: Date, weekday: int, kind: DayType, hours: real, sum7: real)

  /** The row the table shows for date d. */
  predicate RowOf(row: Row, schedule: map<Date, real>, ds: seq<Date>, forced: set<Date>, holidays: set<Date>,
                  disabled: set<Date>, d: Date) {
    && row.date == d
    && row.weekday == Weekday(d)
    && row.hours == Get(schedule, d)
    && row.kind == GetDayType(d, row.hours, forced, holidays, disabled)
    && row.sum7 == SevenDaySum(schedule, ds, d)
  }

  /** The table loop: one row per date of the range, in order. */
  method TableRows(schedule: map<Date, real>, ds: seq<Date>, forced: set<Date>, holidays: set<Date>, disabled: set<Date>)
    returns (rows: seq<Row>)
    requires Increasing(ds)
    ensures |rows| == |ds|
    ensures forall i | 0 <= i < |ds| :: RowOf(rows[i], schedule, ds, forced, holidays, disabled, ds[i])
  {
    var dateListSorted := ds;
    rows := [];
    for i := 0 to |dateListSorted|
      invariant |rows| == i
      invariant forall j | 0 <= j < i :: RowOf(rows[j], schedule, ds, forced, holidays, disabled, ds[j])
    {
      var d := dateListSorted[i];
      var windowDays := Window(dateListSorted, d);
      var sum7d := SumOf(schedule, windowDays);
      var hrs := if d in schedule then schedule[d] else 0.0;
      var dt := GetDayType(d, hrs, forced, holidays, disabled);
      var row := Row(d, Weekday(d), dt, hrs, sum7d);
      assert RowOf(row, schedule, ds, forced, holidays, disabled, d);
      rows := rows + [row];
    }
  }

  lemma {:induction false} SumOfHours(a: Assignment, schedule: map<Date, real>, s: seq<Date>)
    requires forall x | x in s :: Get(schedule, x) == Hours(a, x)
    ensures SumOf(schedule, s) == SumHours(a, s)
  {
    if s != [] {
      assert s[0] in s;
      assert forall x | x in s[1..] :: x in s;
      SumOfHours(a, schedule, s[1..]);
    }
  }

  /** For the schedule of a solution, the seven-day sum of every date is the
      sum over the next seven listed dates, and it is at most 28 hours. */
  lemma SolutionSevenDaySum(a: Assignment, ds: seq<Date>, holidays: set<Date>, disabled: set<Date>, forced: set<Date>,
                            order: seq<Date>, wantOvertime: bool, status: string, i: nat)
    requires Enumerates(order, forced) && Accepted(status) && Consecutive(ds) && i < |ds|
    requires Satisfies(a, Spec(ds, holidays, disabled, order, wantOvertime))
    ensures var j := if i + WindowSpan + 1 <= |ds| then i + WindowSpan + 1 else |ds|;
      && SevenDaySum(Schedule(status, ds, a.hours), ds, ds[i]) == SumHours(a, ds[i..j])
      && SevenDaySum(Schedule(status, ds, a.hours), ds, ds[i]) <= MaxWindowHours
  {
    var j := if i + WindowSpan + 1 <= |ds| then i + WindowSpan + 1 else |ds|;
    var s := Schedule(status, ds, a.hours);
    WindowIsSlice(ds, i);
    WindowInvariant(a, ds, holidays, disabled, forced, order, wantOvertime, i);
    forall x | x in ds[i..j] ensures Get(s, x) == Hours(a, x) {
      ScheduleValue(status, ds, a.hours, x);
    }
    SumOfHours(a, s, ds[i..j]);
  }

  /** For the schedule of a solution, a date that is not forced shows as
      working exactly when the solution chooses it, and a day that may not be
      worked never shows as working. */
  lemma SolutionDayType(a: Assignment, ds: seq<Date>, holidays: set<Date>, disabled: set<Date>, forced: set<Date>,
                        order: seq<Date>, wantOvertime: bool, status: string, d: Date)
    requires Enumerates(order, forced) && Accepted(status) && d in ds
    requires Satisfies(a, Spec(ds, holidays, disabled, order, wantOvertime))
    ensures var t := GetDayType(d, Get(Schedule(status, ds, a.hours), d), forced, holidays, disabled);
      && (d !in forced ==> (t == Working <==> Yes(a, d) == 1.0))
      && (t == Free ==> Yes(a, d) == 0.0)
  {
    SolutionDay(a, ds, holidays, disabled, forced, order, wantOvertime, status, d);
  }

  /** When the solver's status is rejected the schedule is empty: every row
      shows no hours and a zero sum, and no day shows as working. */
  lemma RejectedTable(status: string, ds: seq<Date>, values: map<Date, real>, forced: set<Date>,
                      holidays: set<Date>, disabled: set<Date>, d: Date)
    requires !Accepted(status)
    ensures var s := Schedule(status, ds, values);
      && Get(s, d) == 0.0
      && SevenDaySum(s, ds, d) == 0.0
      && GetDayType(d, Get(s, d), forced, holidays, disabled) != Working
  {
    var s := Schedule(status, ds, values);
    assert s == map[];
    EmptySum(Window(ds, d));
  }

  lemma {:induction false} EmptySum(s: seq<Date>)
    ensures SumOf(map[], s) == 0.0
  {
    if s != [] {
      EmptySum(s[1..]);
    }
  }
}
