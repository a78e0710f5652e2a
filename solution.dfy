/** The end of `plan_workdays_multiple_months`: the solver's status decides
    whether a schedule comes back, and the schedule maps every date of the
    range to the hours the solver assigned it. The solver is not modelled:
    its status string and its values arrive as parameters. */
module Solution {
  import opened Results
  import opened Calendar
  import opened Planner

  /** `status_str in ("Optimal", "Feasible")`. */
  predicate Accepted(status: string) {
    status == "Optimal" || status == "Feasible"
  }

  /** The value of `hours[d]`, or 0.0 when the solver left it without one (None). */
  function ValueOr0(values: map<Date, real>, d: Date): real {
    if d in values then values[d] else 0.0
  }

  /** The dictionary `plan_workdays_multiple_months` returns. */
  function Schedule(status: string, ds: seq<Date>, values: map<Date, real>): map<Date, real> {
    if Accepted(status) then map d | d in ds :: ValueOr0(values, d) else map[]
  }

  /** A rejected status gives the empty schedule; an accepted one gives every
      date of the range, each with its value or 0.0. */
  lemma ScheduleMeaning(status: string, ds: seq<Date>, values: map<Date, real>)
    ensures var s := Schedule(status, ds, values);
      && (!Accepted(status) ==> s == map[])
      && (Accepted(status) ==> forall d :: d in s <==> d in ds)
      && (Accepted(status) ==> forall d | d in ds && d in values :: s[d] == values[d])
      && (Accepted(status) ==> forall d | d in ds && d !in values :: s[d] == 0.0)
  {
  }

  lemma ScheduleValue(status: string, ds: seq<Date>, values: map<Date, real>, d: Date)
    requires Accepted(status) && d in ds
    ensures d in Schedule(status, ds, values) && Schedule(status, ds, values)[d] == ValueOr0(values, d)
  {
  }

  /** The result-collecting loop. */
  method ExtractSchedule(status: string, ds: seq<Date>, values: map<Date, real>) returns (schedule: map<Date, real>)
    ensures schedule == Schedule(status, ds, values)
  {
    if !(status == "Optimal" || status == "Feasible") {
      return map[];
    }
    schedule := map[];
    for i := 0 to |ds|
      invariant schedule == map d | d in ds[..i] :: ValueOr0(values, d)
    {
      var d := ds[i];
      var val := if d in values then values[d] else 0.0;
      schedule := schedule[d := val];
      assert ds[..i + 1] == ds[..i] + [d];
    }
    assert ds[..|ds|] == ds;
  }

  /** `plan_workdays_multiple_months`, with the holidays of the range, the
      solver's status and its values given. */
  method PlanWorkdays(sy: int, sm: int, ey: int, em: int, holidays: set<Date>, disabled: set<Date>, forced: set<Date>,
                      wantOvertime: bool, status: string, values: map<Date, real>)
    returns (r: Result<map<Date, real>, PlanError>, ghost order: seq<Date>)
    ensures DateList(sy, sm, ey, em).Err? ==> r == Err(DateRange(DateList(sy, sm, ey, em).error))
    ensures DateList(sy, sm, ey, em).Ok? ==>
      var ds := DateList(sy, sm, ey, em).value;
      && (r.Ok? <==> forall fd | fd in forced :: fd in ds)
      && (r.Err? ==> r.error.MissingVariable? && r.error.day in forced && r.error.day !in ds)
      && (r.Ok? ==> Enumerates(order, forced) && r.value == Schedule(status, ds, values))
  {
    var problem;
    problem, order := BuildModel(sy, sm, ey, em, holidays, disabled, forced, wantOvertime);
    if problem.Err? {
      return Err(problem.error), order;
    }
    var schedule := ExtractSchedule(status, problem.value.objective, values);
    r := Ok(schedule);
  }

  /** Date by date, the schedule of a solution gives a chosen date between
      7.75 and 14 hours and any other date none; a date that may not be
      worked gets no hours and a forced date is worked. */
  lemma SolutionDay(a: Assignment, ds: seq<Date>, holidays: set<Date>, disabled: set<Date>, forced: set<Date>,
                    order: seq<Date>, wantOvertime: bool, status: string, d: Date)
    requires Enumerates(order, forced) && Accepted(status) && d in ds
    requires Satisfies(a, Spec(ds, holidays, disabled, order, wantOvertime))
    ensures var s := Schedule(status, ds, a.hours);
      && d in s && s[d] == Hours(a, d)
      && (s[d] == 0.0 <==> Yes(a, d) == 0.0)
      && (s[d] > 0.0 <==> Yes(a, d) == 1.0)
      && (s[d] == 0.0 || MinWorkedHours <= s[d] <= MaxDayHours)
      && (!Feasible(d, holidays, disabled) ==> s[d] == 0.0)
      && (d in forced ==> MinWorkedHours <= s[d])
  {
    DayInvariants(a, ds, holidays, disabled, forced, order, wantOvertime, d);
    ScheduleValue(status, ds, a.hours, d);
  }

  /** The dates of ds in month k that a schedule gives hours. */
  function DaysWithHours(s: map<Date, real>, ds: seq<Date>, k: YearMonth): set<Date> {
    set d | d in ds && MonthOf(d) == k && d in s && s[d] > 0.0
  }

  /** The schedule of a solution has exactly ten dates with hours in every
      month of the range. */
  lemma SolutionMonth(a: Assignment, ds: seq<Date>, holidays: set<Date>, disabled: set<Date>, forced: set<Date>,
                      order: seq<Date>, wantOvertime: bool, status: string, k: YearMonth)
    requires Enumerates(order, forced) && Accepted(status) && Increasing(ds) && k in MonthSet(ds)
    requires Satisfies(a, Spec(ds, holidays, disabled, order, wantOvertime))
    ensures |DaysWithHours(Schedule(status, ds, a.hours), ds, k)| == WorkdaysPerMonth
  {
    var s := Schedule(status, ds, a.hours);
    MonthInvariant(a, ds, holidays, disabled, forced, order, wantOvertime, k);
    forall d | d in ds ensures d in s && (s[d] > 0.0 <==> Yes(a, d) == 1.0) {
      DayInvariants(a, ds, holidays, disabled, forced, order, wantOvertime, d);
      ScheduleValue(status, ds, a.hours, d);
    }
    assert DaysWithHours(s, ds, k) == WorkedInMonth(a, ds, k);
  }
}
