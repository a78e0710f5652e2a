/** Proleptic Gregorian dates with the range, ordering, weekday and day
    arithmetic of Python's `datetime.date`, which the scheduler uses for
    every calendar computation. */
module Calendar {
  import opened Results

  /** A (year, month, day) triple; whether it names a real day is a separate predicate. */
  datatype Ymd = Ymd(year: int, month: int, day: int)

  /** `datetime.MINYEAR` and `datetime.MAXYEAR`. */
  const MinYear: int := 1
  const MaxYear: int := 9999

  /** What the date constructor and date arithmetic raise. */
  datatype CalendarError =
    | InvalidDate  // ValueError: year, month or day out of range
    | Overflow     // OverflowError: date value out of range

  predicate IsLeapYear(y: int) {
    y % 4 == 0 && (y % 100 != 0 || y % 400 == 0)
  }

  function DaysInMonth(y: int, m: int): (n: int)
    requires 1 <= m <= 12
    ensures 28 <= n <= 31
  {
    if m == 2 then (if IsLeapYear(y) then 29 else 28)
    else if m == 4 || m == 6 || m == 9 || m == 11 then 30
    else 31
  }

  function DaysInYear(y: int): int {
    if IsLeapYear(y) then 366 else 365
  }

  /** A day of the Gregorian calendar, in any year. */
  predicate IsCalendarDay(x: Ymd) {
    1 <= x.month <= 12 && 1 <= x.day <= DaysInMonth(x.year, x.month)
  }

  /** A day that a `datetime.date` can hold. */
  predicate IsDate(x: Ymd) {
    MinYear <= x.year <= MaxYear && IsCalendarDay(x)
  }

  type Date = x: Ymd | IsDate(x) witness Ymd(1, 1, 1)

  /** `date.min` and `date.max`. */
  const FirstDate: Date := Ymd(1, 1, 1)
  const LastDate: Date := Ymd(9999, 12, 31)

  /** Date comparison: CPython compares the (year, month, day) tuples. */
  predicate Before(a: Ymd, b: Ymd) {
    a.year < b.year || (a.year == b.year && (a.month < b.month || (a.month == b.month && a.day < b.day)))
  }

  predicate NotAfter(a: Ymd, b: Ymd) {
    a == b || Before(a, b)
  }

  /** The calendar day after x. */
  function NextDay(x: Ymd): (r: Ymd)
    requires IsCalendarDay(x)
    ensures IsCalendarDay(r) && Before(x, r)
  {
    if x.day < DaysInMonth(x.year, x.month) then Ymd(x.year, x.month, x.day + 1)
    else if x.month < 12 then Ymd(x.year, x.month + 1, 1)
    else Ymd(x.year + 1, 1, 1)
  }

  /** The calendar day before x. */
  function PrevDay(x: Ymd): (r: Ymd)
    requires IsCalendarDay(x)
    ensures IsCalendarDay(r) && Before(r, x)
  {
    if x.day > 1 then Ymd(x.year, x.month, x.day - 1)
    else if x.month > 1 then Ymd(x.year, x.month - 1, DaysInMonth(x.year, x.month - 1))
    else Ymd(x.year - 1, 12, 31)
  }

  /** NextDay and PrevDay are inverse to each other. */
  lemma NextDayPrevDay(x: Ymd)
    requires IsCalendarDay(x)
    ensures PrevDay(NextDay(x)) == x && NextDay(PrevDay(x)) == x
  {
  }

  /** No calendar day lies strictly between x and the day after it. */
  lemma NoDayBetween(x: Ymd, y: Ymd)
    requires IsCalendarDay(x) && IsCalendarDay(y) && Before(x, y)
    ensures NotAfter(NextDay(x), y)
  {
  }

  /** The only day not after x and before the day after x is x itself. */
  lemma OnlyDayBeforeNext(x: Ymd, y: Ymd)
    requires IsCalendarDay(x) && IsCalendarDay(y) && NotAfter(x, y) && Before(y, NextDay(x))
    ensures x == y
  {
  }

  /** `datetime.date(y, m, d)`. */
  function MakeDate(y: int, m: int, d: int): Result<Date, CalendarError> {
    if IsDate(Ymd(y, m, d)) then Ok(Ymd(y, m, d)) else Err(InvalidDate)
  }

  /** `d + timedelta(days=1)`. */
  function AddOneDay(d: Date): (r: Result<Date, CalendarError>)
    ensures r.Err? <==> d == LastDate
    ensures r.Ok? ==> r.value == NextDay(d)
  {
    if d == LastDate then Err(Overflow) else Ok(NextDay(d))
  }

  /** `d - timedelta(days=1)`. */
  function SubtractOneDay(d: Date): (r: Result<Date, CalendarError>)
    ensures r.Err? <==> d == FirstDate
    ensures r.Ok? ==> r.value == PrevDay(d)
  {
    if d == FirstDate then Err(Overflow) else Ok(PrevDay(d))
  }

  /** `_last_day_of_month(year, month)`: December 31 directly, any other
      month as the day before the first of the following month. */
  function LastDayOfMonth(year: int, month: int): Result<Date, CalendarError> {
    if month == 12 then MakeDate(year, 12, 31)
    else
      var first :- MakeDate(year, month + 1, 1);
      SubtractOneDay(first)
  }

  /** The last day of a valid month is its DaysInMonth-th day (December 31,
      February 29 exactly in leap years). Month 0 is accepted and stands for
      December of the year before; every other input raises. */
  lemma LastDayOfMonthMeaning(year: int, month: int)
    ensures LastDayOfMonth(year, month).Ok? <==>
              MinYear <= year <= MaxYear && 0 <= month <= 12 && !(month == 0 && year == MinYear)
    ensures MinYear <= year <= MaxYear && 1 <= month <= 12 ==>
              LastDayOfMonth(year, month) == Ok(Ymd(year, month, DaysInMonth(year, month)))
    ensures MinYear < year <= MaxYear && month == 0 ==>
              LastDayOfMonth(year, month) == Ok(Ymd(year - 1, 12, 31))
    ensures MinYear <= year <= MaxYear && month == 2 ==>
              (LastDayOfMonth(year, month).value.day == 29 <==> IsLeapYear(year))
  {
  }

  // ---------------------------------------------------------------------
  // Ordinals and weekdays

  /** Days before January 1 of year y, counted from January 1 of year 1. */
  function DaysBeforeYear(y: int): int
    requires y >= 1
  {
    var p := y - 1;
    365 * p + p / 4 - p / 100 + p / 400
  }

  function DaysBeforeMonth(y: int, m: int): int
    requires 1 <= m <= 12
  {
    if m == 1 then 0 else DaysBeforeMonth(y, m - 1) + DaysInMonth(y, m - 1)
  }

  /** `date.toordinal()`: January 1 of year 1 has ordinal 1. */
  function Ordinal(x: Ymd): int
    requires IsCalendarDay(x) && x.year >= 1
  {
    DaysBeforeYear(x.year) + DaysBeforeMonth(x.year, x.month) + x.day
  }

  /** `date.weekday()`: Monday is 0 and Sunday is 6. */
  function Weekday(d: Date): (w: int)
    ensures 0 <= w < 7
  {
    (Ordinal(d) + 6) % 7
  }

  lemma DaysBeforeYearStep(y: int)
    requires y >= 1
    ensures DaysBeforeYear(y + 1) == DaysBeforeYear(y) + DaysInYear(y)
  {
    QuarterStep(y);
    CenturyStep(y);
    QuadCenturyStep(y);
  }

  // Going from y - 1 to y adds one to y / k exactly when k divides y.
  lemma QuarterStep(y: int)
    ensures y / 4 == (y - 1) / 4 + (if y % 4 == 0 then 1 else 0)
  {
  }

  lemma CenturyStep(y: int)
    ensures y / 100 == (y - 1) / 100 + (if y % 100 == 0 then 1 else 0)
  {
  }

  lemma QuadCenturyStep(y: int)
    ensures y / 400 == (y - 1) / 400 + (if y % 400 == 0 then 1 else 0)
  {
  }

  lemma DaysBeforeDecember(y: int)
    ensures DaysBeforeMonth(y, 12) + 31 == DaysInYear(y)
  {
    assert DaysBeforeMonth(y, 2) == 31;
    assert DaysBeforeMonth(y, 3) == 31 + DaysInMonth(y, 2);
    assert DaysBeforeMonth(y, 4) == DaysBeforeMonth(y, 3) + 31;
    assert DaysBeforeMonth(y, 5) == DaysBeforeMonth(y, 4) + 30;
    assert DaysBeforeMonth(y, 6) == DaysBeforeMonth(y, 5) + 31;
    assert DaysBeforeMonth(y, 7) == DaysBeforeMonth(y, 6) + 30;
    assert DaysBeforeMonth(y, 8) == DaysBeforeMonth(y, 7) + 31;
    assert DaysBeforeMonth(y, 9) == DaysBeforeMonth(y, 8) + 31;
    assert DaysBeforeMonth(y, 10) == DaysBeforeMonth(y, 9) + 30;
    assert DaysBeforeMonth(y, 11) == DaysBeforeMonth(y, 10) + 31;
    assert DaysBeforeMonth(y, 12) == DaysBeforeMonth(y, 11) + 30;
  }

  /** The day after x has the next ordinal, so NextDay is `+ timedelta(days=1)`. */
  lemma NextDayOrdinal(x: Ymd)
    requires IsCalendarDay(x) && x.year >= 1
    ensures Ordinal(NextDay(x)) == Ordinal(x) + 1
  {
    if x.day == DaysInMonth(x.year, x.month) && x.month == 12 {
      DaysBeforeYearStep(x.year);
      DaysBeforeDecember(x.year);
    }
  }

  /** Weekdays advance by one, cyclically, from one day to the next. */
  lemma NextDayWeekday(d: Date)
    requires d != LastDate
    ensures Weekday(NextDay(d)) == (Weekday(d) + 1) % 7
  {
    NextDayOrdinal(d);
    SevenCycle(Ordinal(d));
  }

  lemma SevenCycle(o: int)
    ensures (o + 1 + 6) % 7 == ((o + 6) % 7 + 1) % 7
  {
  }

  /** March 1, 2025 is a Saturday and March 3, 2025 a Monday. */
  lemma WeekdayExamples()
    ensures Weekday(Ymd(2025, 3, 1)) == 5
    ensures Weekday(Ymd(2025, 3, 3)) == 0
  {
    assert DaysBeforeYear(2025) == 739251;
    assert DaysBeforeMonth(2025, 3) == 59;
  }

  /** x plus k days, as repeated NextDay. */
  function AddDays(x: Ymd, k: nat): (r: Ymd)
    requires IsCalendarDay(x)
    ensures IsCalendarDay(r)
    decreases k
  {
    if k == 0 then x else AddDays(NextDay(x), k - 1)
  }

  /** AddDays is Python's `x + timedelta(days=k)`, which adds k to the ordinal. */
  lemma {:induction false} AddDaysOrdinal(x: Ymd, k: nat)
    requires IsCalendarDay(x) && x.year >= 1
    ensures AddDays(x, k).year >= 1 && Ordinal(AddDays(x, k)) == Ordinal(x) + k
    decreases k
  {
    if k > 0 {
      NextDayOrdinal(x);
      AddDaysOrdinal(NextDay(x), k - 1);
    }
  }

  lemma {:induction false} AddDaysLast(x: Ymd, k: nat)
    requires IsCalendarDay(x)
    ensures AddDays(x, k + 1) == NextDay(AddDays(x, k))
    decreases k
  {
    if k > 0 {
      AddDaysLast(NextDay(x), k - 1);
    }
  }

  /** Adding more days gives a strictly later day. */
  lemma {:induction false} AddDaysIncreasing(x: Ymd, j: nat, k: nat)
    requires IsCalendarDay(x) && j < k
    ensures Before(AddDays(x, j), AddDays(x, k))
    decreases k
  {
    AddDaysLast(x, k - 1);
    if j < k - 1 {
      AddDaysIncreasing(x, j, k - 1);
    }
  }

  /** Adding k days to a day before December of year 9999 (or early enough in
      it) stays within `date.max`, so Python raises no OverflowError. */
  lemma {:induction false} AddDaysInRange(x: Ymd, k: nat)
    requires IsDate(x) && k <= 30
    requires x.year < MaxYear || x.month < 12 || x.day + k <= 31
    ensures IsDate(AddDays(x, k))
    decreases k
  {
    if k > 0 {
      AddDaysInRange(NextDay(x), k - 1);
    }
  }

  // ---------------------------------------------------------------------
  // Expanding a month range into days

  /** Each day is followed by its NextDay. */
  predicate Consecutive(ds: seq<Date>) {
    forall i | 0 <= i < |ds| - 1 :: NextDay(ds[i]) == ds[i + 1]
  }

  predicate Increasing(ds: seq<Ymd>) {
    forall i, j | 0 <= i < j < |ds| :: Before(ds[i], ds[j])
  }

  /** The loop of `generate_date_list` from start to end: append the current
      day, then step one day forward, while the current day is not after end. */
  function DaysFrom(start: Date, end: Date): Result<seq<Date>, CalendarError>
    decreases end.year - start.year, 13 - start.month, 32 - start.day
  {
    if Before(end, start) then Ok([])
    else
      var next :- AddOneDay(start);
      var rest :- DaysFrom(next, end);
      Ok([start] + rest)
  }

  /** `generate_date_list(start_year, start_month, end_year, end_month)`. */
  function DateList(sy: int, sm: int, ey: int, em: int): Result<seq<Date>, CalendarError> {
    var start :- MakeDate(sy, sm, 1);
    var end :- LastDayOfMonth(ey, em);
    DaysFrom(start, end)
  }

  /** DaysFrom fails exactly when the loop must step past `date.max`. */
  lemma {:induction false} DaysFromOverflow(start: Date, end: Date)
    ensures DaysFrom(start, end).Err? <==> NotAfter(start, end) && end == LastDate
    decreases end.year - start.year, 13 - start.month, 32 - start.day
  {
    if !Before(end, start) && start != LastDate {
      DaysFromOverflow(NextDay(start), end);
    }
  }

  /** DaysFrom lists every day from start to end, in order, each once. */
  lemma {:induction false} DaysFromContents(start: Date, end: Date)
    requires DaysFrom(start, end).Ok?
    ensures var r := DaysFrom(start, end).value;
      && (r == [] <==> Before(end, start))
      && (r != [] ==> r[0] == start && r[|r| - 1] == end)
      && Consecutive(r)
      && (forall x: Date :: x in r <==> NotAfter(start, x) && NotAfter(x, end))
    decreases end.year - start.year, 13 - start.month, 32 - start.day
  {
    if !Before(end, start) {
      var next := NextDay(start);
      var rest := DaysFrom(next, end).value;
      DaysFromContents(next, end);
      assert DaysFrom(start, end).value == [start] + rest;
      forall x: Date
        ensures x in [start] + rest <==> NotAfter(start, x) && NotAfter(x, end)
      {
        if Before(start, x) {
          NoDayBetween(start, x);
        }
      }
    }
  }

  /** The number of days DaysFrom lists is the ordinal distance plus one. */
  lemma {:induction false} DaysFromLength(start: Date, end: Date)
    requires DaysFrom(start, end).Ok?
    ensures |DaysFrom(start, end).value| == if Before(end, start) then 0 else Ordinal(end) - Ordinal(start) + 1
    decreases end.year - start.year, 13 - start.month, 32 - start.day
  {
    if !Before(end, start) {
      assert start != LastDate;
      var next := NextDay(start);
      var rest := DaysFrom(next, end);
      assert rest.Ok? && DaysFrom(start, end).value == [start] + rest.value;
      NextDayOrdinal(start);
      DaysFromLength(next, end);
      if Before(end, next) {
        OnlyDayBeforeNext(start, end);
      } else {
        assert |rest.value| == Ordinal(end) - Ordinal(next) + 1;
      }
    }
  }

  /** Consecutive days are strictly increasing, hence free of duplicates. */
  lemma {:induction false} ConsecutiveIncreasing(ds: seq<Date>)
    requires Consecutive(ds)
    ensures Increasing(ds)
  {
    if |ds| > 1 {
      var tail := ds[1..];
      assert Consecutive(tail) by {
        forall i | 0 <= i < |tail| - 1 ensures NextDay(tail[i]) == tail[i + 1] {
          assert tail[i] == ds[i + 1] && tail[i + 1] == ds[i + 2];
        }
      }
      ConsecutiveIncreasing(tail);
      assert NextDay(ds[0]) == ds[1];
      forall i, j | 0 <= i < j < |ds| ensures Before(ds[i], ds[j]) {
        if i > 0 {
          assert Before(tail[i - 1], tail[j - 1]);
        } else if j > 1 {
          assert Before(tail[0], tail[j - 1]);
        }
      }
    }
  }

  /** The shape `generate_date_list` promises for a range of valid months:
      it starts on the 1st of the start month, ends on the last day of the end
      month, steps one day at a time, and is empty when the end month
      precedes the start month. Only the range ending in December 9999 fails,
      stepping past `date.max`. */
  lemma DateListMeaning(sy: int, sm: int, ey: int, em: int)
    requires MinYear <= sy <= MaxYear && 1 <= sm <= 12
    requires MinYear <= ey <= MaxYear && 1 <= em <= 12
    ensures DateList(sy, sm, ey, em).Err? <==> ey == MaxYear && em == 12
    ensures DateList(sy, sm, ey, em).Ok? ==>
      var r := DateList(sy, sm, ey, em).value;
      && (r == [] <==> ey < sy || (ey == sy && em < sm))
      && (r != [] ==> r[0] == Ymd(sy, sm, 1) && r[|r| - 1] == Ymd(ey, em, DaysInMonth(ey, em)))
      && Consecutive(r)
      && Increasing(r)
      && (forall x: Date :: x in r <==>
             (NotAfter(Ymd(sy, sm, 1), x) && NotAfter(x, Ymd(ey, em, DaysInMonth(ey, em)))))
  {
    LastDayOfMonthMeaning(ey, em);
    var start: Date := Ymd(sy, sm, 1);
    var end: Date := Ymd(ey, em, DaysInMonth(ey, em));
    DaysFromOverflow(start, end);
    if DaysFrom(start, end).Ok? {
      DaysFromContents(start, end);
      ConsecutiveIncreasing(DaysFrom(start, end).value);
    }
  }

  /** Whatever range `generate_date_list` accepts, its days are consecutive
      and strictly increasing. */
  lemma DateListShape(sy: int, sm: int, ey: int, em: int)
    requires DateList(sy, sm, ey, em).Ok?
    ensures Consecutive(DateList(sy, sm, ey, em).value) && Increasing(DateList(sy, sm, ey, em).value)
  {
    var start :| MakeDate(sy, sm, 1) == Ok(start);
    var end :| LastDayOfMonth(ey, em) == Ok(end);
    assert DateList(sy, sm, ey, em) == DaysFrom(start, end);
    DaysFromContents(start, end);
    ConsecutiveIncreasing(DaysFrom(start, end).value);
  }

  /** The `while` loop of `generate_date_list`, appending to `all_dates`. */
  method GenerateDateList(sy: int, sm: int, ey: int, em: int) returns (r: Result<seq<Date>, CalendarError>)
    ensures r == DateList(sy, sm, ey, em)
  {
    var s := MakeDate(sy, sm, 1);
    if s.Err? {
      return Err(s.error);
    }
    var e := LastDayOfMonth(ey, em);
    if e.Err? {
      return Err(e.error);
    }
    var startDate, endDate := s.value, e.value;
    var allDates: seq<Date> := [];
    var current: Date := startDate;
    assert Prepend([], DaysFrom(current, endDate)) == DaysFrom(current, endDate) by {
      assert DaysFrom(current, endDate).Ok? ==> [] + DaysFrom(current, endDate).value == DaysFrom(current, endDate).value;
    }
    while NotAfter(current, endDate)
      invariant DaysFrom(startDate, endDate) == Prepend(allDates, DaysFrom(current, endDate))
      decreases endDate.year - current.year, 13 - current.month, 32 - current.day
    {
      PrependStep(allDates, current, endDate);
      allDates := allDates + [current];
      if current == LastDate {
        return Err(Overflow);
      }
      current := NextDay(current);
    }
    assert allDates + [] == allDates;
    return Ok(allDates);
  }

  /** One turn of the loop of `generate_date_list`. */
  lemma PrependStep(prefix: seq<Date>, current: Date, end: Date)
    requires NotAfter(current, end)
    ensures current == LastDate ==> Prepend(prefix, DaysFrom(current, end)).Err?
    ensures current != LastDate ==>
      Prepend(prefix, DaysFrom(current, end)) == Prepend(prefix + [current], DaysFrom(NextDay(current), end))
  {
    if current != LastDate {
      var rest := DaysFrom(NextDay(current), end);
      if rest.Ok? {
        assert prefix + ([current] + rest.value) == (prefix + [current]) + rest.value;
      }
    }
  }

  function Prepend(prefix: seq<Date>, r: Result<seq<Date>, CalendarError>): Result<seq<Date>, CalendarError> {
    match r
    case Ok(rest) => Ok(prefix + rest)
    case Err(e) => Err(e)
  }

  // ---------------------------------------------------------------------
  // Month ranges

  datatype YearMonth = YearMonth(year: int, month: int)

  /** The month after k, as the generator steps it. */
  function NextMonth(k: YearMonth): YearMonth {
    if k.month + 1 > 12 then YearMonth(k.year + 1, 1) else YearMonth(k.year, k.month + 1)
  }

  predicate MonthNotAfter(a: YearMonth, b: YearMonth) {
    a.year < b.year || (a.year == b.year && a.month <= b.month)
  }

  predicate MonthBefore(a: YearMonth, b: YearMonth) {
    a.year < b.year || (a.year == b.year && a.month < b.month)
  }

  /** What the generator `month_range` yields, from k through last. */
  function MonthsFrom(k: YearMonth, last: YearMonth): seq<YearMonth>
    decreases last.year - k.year, 12 - k.month
  {
    if MonthNotAfter(k, last) then [k] + MonthsFrom(NextMonth(k), last) else []
  }

  /** For valid months, `month_range` yields every month from the first to
      the last, in increasing order, each once. */
  lemma {:induction false} MonthsFromContents(k: YearMonth, last: YearMonth)
    requires 1 <= k.month <= 12 && 1 <= last.month <= 12
    ensures var r := MonthsFrom(k, last);
      && (r == [] <==> MonthBefore(last, k))
      && (r != [] ==> r[0] == k && r[|r| - 1] == last)
      && (forall i | 0 <= i < |r| - 1 :: NextMonth(r[i]) == r[i + 1])
      && (forall i, j | 0 <= i < j < |r| :: MonthBefore(r[i], r[j]))
      && (forall x :: x in r <==> 1 <= x.month <= 12 && MonthNotAfter(k, x) && MonthNotAfter(x, last))
    decreases last.year - k.year, 12 - k.month
  {
    if MonthNotAfter(k, last) {
      var rest := MonthsFrom(NextMonth(k), last);
      MonthsFromContents(NextMonth(k), last);
      assert MonthsFrom(k, last) == [k] + rest;
    }
  }

  /** The generator `month_range(y1, m1, y2, m2)`, stepping `y` and `m`. */
  method MonthRange(y1: int, m1: int, y2: int, m2: int) returns (r: seq<YearMonth>)
    ensures r == MonthsFrom(YearMonth(y1, m1), YearMonth(y2, m2))
  {
    var y, m := y1, m1;
    r := [];
    while y < y2 || (y == y2 && m <= m2)
      invariant MonthsFrom(YearMonth(y1, m1), YearMonth(y2, m2)) == r + MonthsFrom(YearMonth(y, m), YearMonth(y2, m2))
      decreases y2 - y, 12 - m
    {
      r := r + [YearMonth(y, m)];
      m := m + 1;
      if m > 12 {
        m := 1;
        y := y + 1;
      }
    }
  }
}
