/** The mixed-integer model that `plan_workdays_multiple_months` hands to the
    solver, built loop by loop as the source builds it, and what every
    assignment satisfying the model guarantees about the schedule. Hours are
    exact `real` values, the values the solver's continuous variables take. */
module Planner {
  import opened Results
  import opened Calendar

  const MinWorkedHours: real := 7.75  // hours >= 7.75 * yes_no
  const MaxDayHours: real := 14.0     // the upper bound of every hours variable, and hours <= 14
  const LinkFactor: real := 28.0      // hours <= 28 * yes_no
  const MaxWindowHours: real := 28.0  // at most 28 hours in a rolling window
  const WorkdaysPerMonth: int := 10
  const WindowSpan: nat := 6          // a window runs from d through d + 6 days

  /** LpMaximize or LpMinimize. */
  datatype Sense = Maximize | Minimize

  /** How a decision variable is declared: binary, or continuous between bounds. */
  datatype VarDecl = Binary | Continuous(lo: real, hi: real)

  /** The constraints the builder adds to the problem, one constructor per kind. */
  datatype Constraint =
    | ForceZero(day: Date)                               // yes_no[d] == 0
    | Exactly10Days(key: YearMonth, days: seq<Date>)     // sum of yes_no over days == 10
    | MinHoursIfWorked(day: Date)                        // hours[d] >= 7.75 * yes_no[d]
    | Max14Hours(day: Date)                              // hours[d] <= 14
    | ZeroIfNotWorked(day: Date)                         // hours[d] <= 28 * yes_no[d]
    | ForcedDay(day: Date)                               // yes_no[d] == 1
    | Max28HoursWindow(start: Date, days: seq<Date>)     // sum of hours over days <= 28

  /** The problem: its sense, the `yes_no` and `hours` variables by date, the
      constraints in the order they are added, and the dates whose hours the
      objective sums. */
  datatype Problem = Problem(
    sense: Sense,
    yesNo: map<Date, VarDecl>,
    hours: map<Date, VarDecl>,
    constraints: seq<Constraint>,
    objective: seq<Date>)

  /** Why building the problem fails: the date range raises, or a forced day
      has no `yes_no` variable (a KeyError). */
  datatype PlanError = DateRange(error: CalendarError) | MissingVariable(day: Date)

  /** A day that may be worked: not a weekend, not a holiday, not disabled. */
  predicate Feasible(d: Date, holidays: set<Date>, disabled: set<Date>) {
    !(Weekday(d) >= 5 || d in holidays || d in disabled)
  }

  function MonthOf(d: Ymd): YearMonth {
    YearMonth(d.year, d.month)
  }

  predicate Distinct<T(==)>(s: seq<T>) {
    forall i, j | 0 <= i < j < |s| :: s[i] != s[j]
  }

  /** The elements of `order` are those of `s`, each once. */
  ghost predicate Enumerates(order: seq<Date>, s: set<Date>) {
    Distinct(order) && forall x :: x in order <==> x in s
  }

  // ---------------------------------------------------------------------
  // Comprehensions over the date list

  /** `[x for x in ds if lo <= x <= hi]`. */
  function Between(ds: seq<Date>, lo: Ymd, hi: Ymd): seq<Date> {
    if ds == [] then []
    else (if NotAfter(lo, ds[0]) && NotAfter(ds[0], hi) then [ds[0]] else []) + Between(ds[1..], lo, hi)
  }

  /** The window of start date d: the listed dates from d through d + 6 days. */
  function Window(ds: seq<Date>, d: Date): seq<Date> {
    Between(ds, d, AddDays(d, WindowSpan))
  }

  /** `[d for d in ds if (d.year, d.month) == k]`. */
  function InMonth(ds: seq<Date>, k: YearMonth): seq<Date> {
    if ds == [] then []
    else (if MonthOf(ds[0]) == k then [ds[0]] else []) + InMonth(ds[1..], k)
  }

  /** `{(d.year, d.month) for d in ds}`. */
  function MonthSet(ds: seq<Date>): set<YearMonth> {
    set d | d in ds :: MonthOf(d)
  }

  lemma {:induction false} LeastMonthExists(s: set<YearMonth>)
    requires s != {}
    ensures exists m :: m in s && forall x | x in s :: MonthNotAfter(m, x)
    decreases |s|
  {
    var y :| y in s;
    if s != {y} {
      LeastMonthExists(s - {y});
      var m :| m in s - {y} && forall x | x in s - {y} :: MonthNotAfter(m, x);
      if !MonthNotAfter(m, y) {
        forall x | x in s ensures MonthNotAfter(y, x) {
          if x != y {
            assert x in s - {y};
          }
        }
      } else {
        assert forall x | x in s :: MonthNotAfter(m, x);
      }
    }
  }

  /** `sorted(list(s))` for a set of (year, month) pairs: the least one first. */
  function SortedMonths(s: set<YearMonth>): seq<YearMonth>
    decreases |s|
  {
    if s == {} then []
    else
      LeastMonthExists(s);
      var m :| m in s && forall x | x in s :: MonthNotAfter(m, x);
      [m] + SortedMonths(s - {m})
  }

  /** The sorted months are the elements of the set, each once, in increasing order. */
  lemma {:induction false} SortedMonthsMeaning(s: set<YearMonth>)
    ensures var r := SortedMonths(s);
      && |r| == |s|
      && (forall x :: x in r <==> x in s)
      && (forall i, j | 0 <= i < j < |r| :: MonthBefore(r[i], r[j]))
    decreases |s|
  {
    if s != {} {
      LeastMonthExists(s);
      var m :| m in s && forall x | x in s :: MonthNotAfter(m, x);
      var rest := SortedMonths(s - {m});
      SortedMonthsMeaning(s - {m});
      assert SortedMonths(s) == [m] + rest;
      var r := [m] + rest;
      forall i, j | 0 <= i < j < |r| ensures MonthBefore(r[i], r[j]) {
        if i == 0 {
          assert r[j] == rest[j - 1] && r[j] in s - {m};
        } else {
          assert r[i] == rest[i - 1] && r[j] == rest[j - 1];
        }
      }
    }
  }

  // ---------------------------------------------------------------------
  // The constraints, loop by loop

  /** What one pass of a per-day loop adds for one day. */
  datatype DayRule =
    | PinRule(holidays: set<Date>, disabled: set<Date>)  // the variable loop: ForceZero when not feasible
    | LinkRule                                          // the linkage loop
    | ForceRule                                         // the forced-day loop
    | WindowRule(dates: seq<Date>)                      // the rolling-window loop

  function RuleFor(r: DayRule, d: Date): seq<Constraint> {
    match r
    case PinRule(holidays, disabled) => if Feasible(d, holidays, disabled) then [] else [ForceZero(d)]
    case LinkRule => [MinHoursIfWorked(d), Max14Hours(d), ZeroIfNotWorked(d)]
    case ForceRule => [ForcedDay(d)]
    case WindowRule(dates) => [Max28HoursWindow(d, Window(dates, d))]
  }

  /** The constraints a per-day loop has added after its first n days. */
  function PerDay(ds: seq<Date>, n: nat, r: DayRule): seq<Constraint>
    requires n <= |ds|
  {
    if n == 0 then [] else PerDay(ds, n - 1, r) + RuleFor(r, ds[n - 1])
  }

  /** The constraints the month loop has added after its first n months. */
  function PerMonth(keys: seq<YearMonth>, ds: seq<Date>, n: nat): seq<Constraint>
    requires n <= |keys|
  {
    if n == 0 then [] else PerMonth(keys, ds, n - 1) + [Exactly10Days(keys[n - 1], InMonth(ds, keys[n - 1]))]
  }

  /** A per-day loop's constraints depend only on the days it has visited. */
  lemma {:induction false} PerDayPrefix(ds: seq<Date>, es: seq<Date>, n: nat, r: DayRule)
    requires n <= |ds| && n <= |es| && ds[..n] == es[..n]
    ensures PerDay(ds, n, r) == PerDay(es, n, r)
  {
    if n > 0 {
      assert ds[n - 1] == ds[..n][n - 1] == es[..n][n - 1] == es[n - 1];
      assert ds[..n - 1] == ds[..n][..n - 1] == es[..n][..n - 1] == es[..n - 1];
      PerDayPrefix(ds, es, n - 1, r);
    }
  }

  function BinaryVars(ds: seq<Date>): map<Date, VarDecl> {
    map d | d in ds :: Binary
  }

  function HourVars(ds: seq<Date>): map<Date, VarDecl> {
    map d | d in ds :: Continuous(0.0, MaxDayHours)
  }

  /** The problem built over the date list ds when the forced days are
      visited in `order`. */
  function Spec(ds: seq<Date>, holidays: set<Date>, disabled: set<Date>, order: seq<Date>, wantOvertime: bool): Problem {
    var keys := SortedMonths(MonthSet(ds));
    Problem(
      if wantOvertime then Maximize else Minimize,
      BinaryVars(ds),
      HourVars(ds),
      PerDay(ds, |ds|, PinRule(holidays, disabled)) + PerMonth(keys, ds, |keys|) + PerDay(ds, |ds|, LinkRule)
        + PerDay(order, |order|, ForceRule) + PerDay(ds, |ds|, WindowRule(ds)),
      ds)
  }

  lemma PinStep(ds: seq<Date>, i: nat, holidays: set<Date>, disabled: set<Date>)
    requires i < |ds|
    ensures PerDay(ds, i + 1, PinRule(holidays, disabled))
      == PerDay(ds, i, PinRule(holidays, disabled)) + if Feasible(ds[i], holidays, disabled) then [] else [ForceZero(ds[i])]
  {
  }

  lemma VarsStep(ds: seq<Date>, i: nat)
    requires i < |ds|
    ensures BinaryVars(ds[..i + 1]) == BinaryVars(ds[..i])[ds[i] := Binary]
    ensures HourVars(ds[..i + 1]) == HourVars(ds[..i])[ds[i] := Continuous(0.0, MaxDayHours)]
  {
    assert ds[..i + 1] == ds[..i] + [ds[i]];
  }

  /** The variable loop: one binary `yes_no` and one `hours` variable in
      [0, 14] per date, and ForceZero for every date that may not be worked.
      The upper bound the source computes for `yes_no` never reaches the
      declaration of a binary variable, so every `yes_no` variable is plain binary. */
  method DeclareVariables(ds: seq<Date>, holidays: set<Date>, disabled: set<Date>, forced: set<Date>)
    returns (yesNo: map<Date, VarDecl>, hours: map<Date, VarDecl>, cs: seq<Constraint>)
    ensures yesNo == BinaryVars(ds) && hours == HourVars(ds)
    ensures cs == PerDay(ds, |ds|, PinRule(holidays, disabled))
  {
    yesNo, hours, cs := map[], map[], [];
    for i := 0 to |ds|
      invariant yesNo == BinaryVars(ds[..i]) && hours == HourVars(ds[..i])
      invariant cs == PerDay(ds, i, PinRule(holidays, disabled))
    {
      var d := ds[i];
      var feasible := !(Weekday(d) >= 5 || d in holidays || d in disabled);
      var yesNoUb := if d in forced then 1 else if feasible then 1 else 0;
      if !feasible {
        yesNo := yesNo[d := Binary];
        cs := cs + [ForceZero(d)];
      } else {
        yesNo := yesNo[d := Binary];
      }
      hours := hours[d := Continuous(0.0, MaxDayHours)];
      VarsStep(ds, i);
      PinStep(ds, i, holidays, disabled);
    }
    assert ds[..|ds|] == ds;
  }

  /** Constraint 1: exactly ten workdays in every (year, month) of the range,
      the months taken in increasing order. */
  method AddMonthConstraints(ds: seq<Date>, cs0: seq<Constraint>) returns (cs: seq<Constraint>)
    ensures var keys := SortedMonths(MonthSet(ds)); cs == cs0 + PerMonth(keys, ds, |keys|)
  {
    cs := cs0;
    var allYm := SortedMonths(MonthSet(ds));
    for j := 0 to |allYm|
      invariant cs == cs0 + PerMonth(allYm, ds, j)
    {
      var datesInMonth := InMonth(ds, allYm[j]);
      cs := cs + [Exactly10Days(allYm[j], datesInMonth)];
    }
  }

  /** Constraint 2: hours linked to `yes_no`, and capped at 14, for every date. */
  method AddLinkConstraints(ds: seq<Date>, cs0: seq<Constraint>) returns (cs: seq<Constraint>)
    ensures cs == cs0 + PerDay(ds, |ds|, LinkRule)
  {
    cs := cs0;
    for i := 0 to |ds|
      invariant cs == cs0 + PerDay(ds, i, LinkRule)
    {
      var d := ds[i];
      cs := cs + [MinHoursIfWorked(d), Max14Hours(d), ZeroIfNotWorked(d)];
    }
  }

  /** Constraint 2b: every forced day is worked. A forced day with no
      `yes_no` variable stops the build, as the KeyError does. */
  method AddForcedConstraints(forced: set<Date>, yesNo: map<Date, VarDecl>, cs0: seq<Constraint>)
    returns (r: Result<seq<Constraint>, PlanError>, ghost order: seq<Date>)
    ensures r.Ok? <==> forall fd | fd in forced :: fd in yesNo
    ensures r.Err? ==> r.error.MissingVariable? && r.error.day in forced && r.error.day !in yesNo
    ensures r.Ok? ==> Enumerates(order, forced) && r.value == cs0 + PerDay(order, |order|, ForceRule)
  {
    order := [];
    var cs := cs0;
    var remaining := forced;
    while remaining != {}
      invariant remaining <= forced
      invariant Distinct(order)
      invariant forall x :: x in order <==> x in forced && x !in remaining
      invariant forall x | x in order :: x in yesNo
      invariant cs == cs0 + PerDay(order, |order|, ForceRule)
      decreases |remaining|
    {
      var fd :| fd in remaining;
      if fd !in yesNo {
        return Err(MissingVariable(fd)), order;
      }
      ghost var next := order + [fd];
      assert next[..|order|] == order[..|order|] && next[|order|] == fd;
      PerDayPrefix(order, next, |order|, ForceRule);
      cs := cs + [ForcedDay(fd)];
      order := next;
      remaining := remaining - {fd};
    }
    r := Ok(cs);
  }

  /** Constraint 3: at most 28 hours in the window of every start date. The
      list of a range is already increasing, so `sorted` leaves it as it is,
      and its window ends never overflow (WindowEndIsDate). */
  method AddWindowConstraints(ds: seq<Date>, cs0: seq<Constraint>) returns (cs: seq<Constraint>)
    requires Increasing(ds)
    ensures |cs| == |cs0| + |ds|
    ensures cs == cs0 + PerDay(ds, |ds|, WindowRule(ds))
  {
    cs := cs0;
    var dateListSorted := ds;
    for i := 0 to |dateListSorted|
      invariant |cs| == |cs0| + i
      invariant cs == cs0 + PerDay(ds, i, WindowRule(ds))
    {
      var d := dateListSorted[i];
      var windowDays := Window(dateListSorted, d);
      cs := cs + [Max28HoursWindow(d, windowDays)];
      WindowStep(ds, i);
    }
  }

  lemma WindowStep(ds: seq<Date>, i: nat)
    requires i < |ds|
    ensures PerDay(ds, i + 1, WindowRule(ds)) == PerDay(ds, i, WindowRule(ds)) + [Max28HoursWindow(ds[i], Window(ds, ds[i]))]
  {
  }

  /** The model-building part of `plan_workdays_multiple_months`. The forced
      days are a set; `order` is the order in which the loop visits them. */
  method BuildModel(sy: int, sm: int, ey: int, em: int, holidays: set<Date>, disabled: set<Date>, forced: set<Date>,
                    wantOvertime: bool)
    returns (r: Result<Problem, PlanError>, ghost order: seq<Date>)
    ensures DateList(sy, sm, ey, em).Err? ==> r == Err(DateRange(DateList(sy, sm, ey, em).error))
    ensures DateList(sy, sm, ey, em).Ok? ==>
      var ds := DateList(sy, sm, ey, em).value;
      && (r.Ok? <==> forall fd | fd in forced :: fd in ds)
      && (r.Err? ==> r.error.MissingVariable? && r.error.day in forced && r.error.day !in ds)
      && (r.Ok? ==> Enumerates(order, forced) && r.value == Spec(ds, holidays, disabled, order, wantOvertime))
  {
    order := [];
    var dateList := GenerateDateList(sy, sm, ey, em);
    if dateList.Err? {
      return Err(DateRange(dateList.error)), order;
    }
    var ds := dateList.value;
    var sense := if wantOvertime then Maximize else Minimize;
    var yesNo, hours, cs := DeclareVariables(ds, holidays, disabled, forced);
    assert forall x :: x in yesNo <==> x in ds;
    cs := AddMonthConstraints(ds, cs);
    cs := AddLinkConstraints(ds, cs);
    var withForced;
    withForced, order := AddForcedConstraints(forced, yesNo, cs);
    if withForced.Err? {
      return Err(withForced.error), order;
    }
    DateListShape(sy, sm, ey, em);
    cs := AddWindowConstraints(ds, withForced.value);
    r := Ok(Problem(sense, yesNo, hours, cs, ds));
  }

  /** `d + timedelta(days=6)` never passes `date.max` for a day of a range
      that `generate_date_list` accepts: that range ends before December 9999. */
  lemma WindowEndIsDate(sy: int, sm: int, ey: int, em: int, d: Date)
    requires DateList(sy, sm, ey, em).Ok? && d in DateList(sy, sm, ey, em).value
    ensures IsDate(AddDays(d, WindowSpan))
  {
    var start :| MakeDate(sy, sm, 1) == Ok(start);
    var end :| LastDayOfMonth(ey, em) == Ok(end);
    assert DateList(sy, sm, ey, em) == DaysFrom(start, end);
    DaysFromOverflow(start, end);
    DaysFromContents(start, end);
    assert NotAfter(d, end);
    LastDayOfMonthMeaning(ey, em);
    assert end.year < MaxYear || end.month < 12;
    AddDaysInRange(d, WindowSpan);
  }

  // ---------------------------------------------------------------------
  // Which constraints the problem holds

  /** A per-day loop adds, for each visited day, the constraints of that day. */
  lemma {:induction false} PerDayMembers(ds: seq<Date>, n: nat, r: DayRule, c: Constraint)
    requires n <= |ds|
    ensures c in PerDay(ds, n, r) <==> exists j :: 0 <= j < n && c in RuleFor(r, ds[j])
  {
    if n > 0 {
      var prev, here := PerDay(ds, n - 1, r), RuleFor(r, ds[n - 1]);
      PerDayMembers(ds, n - 1, r, c);
      assert PerDay(ds, n, r) == prev + here;
      if c in here {
        assert 0 <= n - 1 < n && c in RuleFor(r, ds[n - 1]);
      }
      if j :| 0 <= j < n && c in RuleFor(r, ds[j]) {
        if j < n - 1 {
          assert c in prev;
        } else {
          assert c in here;
        }
      }
    }
  }

  lemma PerDayOf(ds: seq<Date>, r: DayRule, c: Constraint)
    ensures c in PerDay(ds, |ds|, r) <==> exists d :: d in ds && c in RuleFor(r, d)
  {
    PerDayMembers(ds, |ds|, r, c);
    if exists d :: d in ds && c in RuleFor(r, d) {
      var d :| d in ds && c in RuleFor(r, d);
      var j :| 0 <= j < |ds| && ds[j] == d;
      assert c in RuleFor(r, ds[j]);
    }
  }

  /** The month loop adds one Exactly10Days per visited month, over the dates of that month. */
  lemma {:induction false} PerMonthMembers(keys: seq<YearMonth>, ds: seq<Date>, n: nat, c: Constraint)
    requires n <= |keys|
    ensures c in PerMonth(keys, ds, n) <==> exists j :: 0 <= j < n && c == Exactly10Days(keys[j], InMonth(ds, keys[j]))
  {
    if n > 0 {
      PerMonthMembers(keys, ds, n - 1, c);
    }
  }

  /** The constraints a problem over the date list ds holds, kind by kind: a
      ForceZero for each day that may not be worked, an Exactly10Days over the
      dates of each month that has dates, the three linking constraints for
      each date, a ForcedDay for each forced day, and the window of each date. */
  predicate Expected(c: Constraint, ds: seq<Date>, holidays: set<Date>, disabled: set<Date>, forced: set<Date>) {
    match c
    case ForceZero(d) => d in ds && !Feasible(d, holidays, disabled)
    case Exactly10Days(k, days) => k in MonthSet(ds) && days == InMonth(ds, k)
    case MinHoursIfWorked(d) => d in ds
    case Max14Hours(d) => d in ds
    case ZeroIfNotWorked(d) => d in ds
    case ForcedDay(d) => d in forced
    case Max28HoursWindow(d, days) => d in ds && days == Window(ds, d)
  }

  lemma PinMembers(ds: seq<Date>, holidays: set<Date>, disabled: set<Date>, c: Constraint)
    ensures c in PerDay(ds, |ds|, PinRule(holidays, disabled)) <==> c.ForceZero? && c.day in ds && !Feasible(c.day, holidays, disabled)
  {
    PerDayOf(ds, PinRule(holidays, disabled), c);
    if c.ForceZero? && c.day in ds && !Feasible(c.day, holidays, disabled) {
      assert c in RuleFor(PinRule(holidays, disabled), c.day);
    }
  }

  lemma LinkRuleMembers(d: Date, c: Constraint)
    ensures c in RuleFor(LinkRule, d) <==> c == MinHoursIfWorked(d) || c == Max14Hours(d) || c == ZeroIfNotWorked(d)
  {
    assert RuleFor(LinkRule, d) == [MinHoursIfWorked(d), Max14Hours(d), ZeroIfNotWorked(d)];
  }

  lemma LinkMembers(ds: seq<Date>, c: Constraint)
    ensures c in PerDay(ds, |ds|, LinkRule) <==> (c.MinHoursIfWorked? || c.Max14Hours? || c.ZeroIfNotWorked?) && c.day in ds
  {
    PerDayOf(ds, LinkRule, c);
    if c in PerDay(ds, |ds|, LinkRule) {
      var d :| d in ds && c in RuleFor(LinkRule, d);
      LinkRuleMembers(d, c);
    } else if (c.MinHoursIfWorked? || c.Max14Hours? || c.ZeroIfNotWorked?) && c.day in ds {
      LinkRuleMembers(c.day, c);
    }
  }

  lemma ForceMembers(order: seq<Date>, forced: set<Date>, c: Constraint)
    requires Enumerates(order, forced)
    ensures c in PerDay(order, |order|, ForceRule) <==> c.ForcedDay? && c.day in forced
  {
    PerDayOf(order, ForceRule, c);
    if c.ForcedDay? && c.day in forced {
      assert c in RuleFor(ForceRule, c.day);
    }
  }

  lemma WindowMembers(ds: seq<Date>, c: Constraint)
    ensures c in PerDay(ds, |ds|, WindowRule(ds)) <==> c.Max28HoursWindow? && c.start in ds && c.days == Window(ds, c.start)
  {
    PerDayOf(ds, WindowRule(ds), c);
    if c.Max28HoursWindow? && c.start in ds && c.days == Window(ds, c.start) {
      assert c in RuleFor(WindowRule(ds), c.start);
    }
  }

  lemma MonthMembers(ds: seq<Date>, c: Constraint)
    ensures var keys := SortedMonths(MonthSet(ds));
      c in PerMonth(keys, ds, |keys|) <==> c.Exactly10Days? && c.key in MonthSet(ds) && c.days == InMonth(ds, c.key)
  {
    var keys := SortedMonths(MonthSet(ds));
    SortedMonthsMeaning(MonthSet(ds));
    PerMonthMembers(keys, ds, |keys|, c);
    if c.Exactly10Days? && c.key in MonthSet(ds) && c.days == InMonth(ds, c.key) {
      var j :| 0 <= j < |keys| && keys[j] == c.key;
      assert c == Exactly10Days(keys[j], InMonth(ds, keys[j]));
    }
  }

  /** The problem holds exactly the expected constraints, whatever the order
      in which the forced days are visited. */
  lemma SpecConstraints(ds: seq<Date>, holidays: set<Date>, disabled: set<Date>, forced: set<Date>,
                        order: seq<Date>, wantOvertime: bool, c: Constraint)
    requires Enumerates(order, forced)
    ensures c in Spec(ds, holidays, disabled, order, wantOvertime).constraints <==> Expected(c, ds, holidays, disabled, forced)
  {
    PinMembers(ds, holidays, disabled, c);
    MonthMembers(ds, c);
    LinkMembers(ds, c);
    ForceMembers(order, forced, c);
    WindowMembers(ds, c);
  }

  /** The day a constraint is about; a month constraint is placed on day 0 of its month. */
  function Subject(c: Constraint): Ymd {
    match c
    case ForceZero(d) => d
    case Exactly10Days(k, _) => Ymd(k.year, k.month, 0)
    case MinHoursIfWorked(d) => d
    case Max14Hours(d) => d
    case ZeroIfNotWorked(d) => d
    case ForcedDay(d) => d
    case Max28HoursWindow(d, _) => d
  }

  lemma RuleSubject(r: DayRule, x: Date, c: Constraint)
    requires c in RuleFor(r, x)
    ensures Subject(c) == x
  {
  }

  lemma DistinctAppend<T>(s: seq<T>, t: seq<T>)
    requires Distinct(s) && Distinct(t) && forall x | x in s :: x !in t
    ensures Distinct(s + t)
  {
    forall i, j | 0 <= i < j < |s + t| ensures (s + t)[i] != (s + t)[j] {
      if j < |s| {
        assert (s + t)[i] == s[i] && (s + t)[j] == s[j];
      } else if i < |s| {
        assert (s + t)[i] == s[i] && (s + t)[j] == t[j - |s|];
        assert s[i] in s;
      } else {
        assert (s + t)[i] == t[i - |s|] && (s + t)[j] == t[j - |s|];
      }
    }
  }

  /** Over distinct days, a per-day loop never adds the same constraint twice. */
  lemma {:induction false} PerDayDistinct(ds: seq<Date>, n: nat, r: DayRule)
    requires n <= |ds| && Distinct(ds)
    ensures Distinct(PerDay(ds, n, r))
  {
    if n > 0 {
      PerDayDistinct(ds, n - 1, r);
      var prev := PerDay(ds, n - 1, r);
      forall k | 0 <= k < |prev| ensures prev[k] !in RuleFor(r, ds[n - 1]) {
        var c := prev[k];
        PerDayMembers(ds, n - 1, r, c);
        var j :| 0 <= j < n - 1 && c in RuleFor(r, ds[j]);
        RuleSubject(r, ds[j], c);
        if c in RuleFor(r, ds[n - 1]) {
          RuleSubject(r, ds[n - 1], c);
        }
      }
      DistinctAppend(PerDay(ds, n - 1, r), RuleFor(r, ds[n - 1]));
    }
  }

  /** Over distinct months, the month loop never adds the same constraint twice. */
  lemma {:induction false} PerMonthDistinct(keys: seq<YearMonth>, ds: seq<Date>, n: nat)
    requires n <= |keys| && Distinct(keys)
    ensures Distinct(PerMonth(keys, ds, n))
  {
    if n > 0 {
      PerMonthDistinct(keys, ds, n - 1);
      var c := Exactly10Days(keys[n - 1], InMonth(ds, keys[n - 1]));
      PerMonthMembers(keys, ds, n - 1, c);
      DistinctAppend(PerMonth(keys, ds, n - 1), [c]);
    }
  }

  /** The constructor each per-day loop uses. */
  predicate OfRule(r: DayRule, c: Constraint) {
    match r
    case PinRule(_, _) => c.ForceZero?
    case LinkRule => c.MinHoursIfWorked? || c.Max14Hours? || c.ZeroIfNotWorked?
    case ForceRule => c.ForcedDay?
    case WindowRule(_) => c.Max28HoursWindow?
  }

  lemma {:induction false} PerDayKinds(ds: seq<Date>, n: nat, r: DayRule)
    requires n <= |ds|
    ensures forall c | c in PerDay(ds, n, r) :: OfRule(r, c)
  {
    if n > 0 {
      PerDayKinds(ds, n - 1, r);
    }
  }

  lemma {:induction false} PerMonthKinds(keys: seq<YearMonth>, ds: seq<Date>, n: nat)
    requires n <= |keys|
    ensures forall c | c in PerMonth(keys, ds, n) :: c.Exactly10Days?
  {
    if n > 0 {
      PerMonthKinds(keys, ds, n - 1);
    }
  }

  /** The constraints of the variable, month and linkage loops: none twice, and
      none of a kind the forced-day or window loops add. */
  lemma HeadDistinct(ds: seq<Date>, holidays: set<Date>, disabled: set<Date>)
    requires Distinct(ds)
    ensures var keys := SortedMonths(MonthSet(ds));
      var head := PerDay(ds, |ds|, PinRule(holidays, disabled)) + PerMonth(keys, ds, |keys|) + PerDay(ds, |ds|, LinkRule);
      && Distinct(head)
      && forall c | c in head :: !c.ForcedDay? && !c.Max28HoursWindow?
  {
    var keys := SortedMonths(MonthSet(ds));
    SortedMonthsMeaning(MonthSet(ds));
    var pin := PerDay(ds, |ds|, PinRule(holidays, disabled));
    var months := PerMonth(keys, ds, |keys|);
    var links := PerDay(ds, |ds|, LinkRule);
    PerDayDistinct(ds, |ds|, PinRule(holidays, disabled));
    PerMonthDistinct(keys, ds, |keys|);
    PerDayDistinct(ds, |ds|, LinkRule);
    PerDayKinds(ds, |ds|, PinRule(holidays, disabled));
    PerMonthKinds(keys, ds, |keys|);
    PerDayKinds(ds, |ds|, LinkRule);
    DistinctAppend(pin, months);
    DistinctAppend(pin + months, links);
  }

  /** Over a list of distinct dates, no constraint of the problem appears twice. */
  lemma SpecDistinct(ds: seq<Date>, holidays: set<Date>, disabled: set<Date>, forced: set<Date>,
                     order: seq<Date>, wantOvertime: bool)
    requires Distinct(ds) && Enumerates(order, forced)
    ensures Distinct(Spec(ds, holidays, disabled, order, wantOvertime).constraints)
  {
    var keys := SortedMonths(MonthSet(ds));
    var head := PerDay(ds, |ds|, PinRule(holidays, disabled)) + PerMonth(keys, ds, |keys|) + PerDay(ds, |ds|, LinkRule);
    var forcing := PerDay(order, |order|, ForceRule);
    var windows := PerDay(ds, |ds|, WindowRule(ds));
    HeadDistinct(ds, holidays, disabled);
    PerDayDistinct(order, |order|, ForceRule);
    PerDayDistinct(ds, |ds|, WindowRule(ds));
    PerDayKinds(order, |order|, ForceRule);
    PerDayKinds(ds, |ds|, WindowRule(ds));
    DistinctAppend(head, forcing);
    DistinctAppend(head + forcing, windows);
  }

  lemma {:induction false} DistinctCount<T>(s: seq<T>, x: T)
    requires Distinct(s)
    ensures multiset(s)[x] == if x in s then 1 else 0
  {
    if s != [] {
      DistinctTail(s);
      DistinctCount(s[1..], x);
      assert s == [s[0]] + s[1..];
      assert multiset(s) == multiset([s[0]]) + multiset(s[1..]);
    }
  }

  /** Each expected constraint appears exactly once and nothing else appears:
      one ForceZero per day that may not be worked, forced or not; one
      ten-day constraint per month with dates, however short; one window per
      start date; and so on. */
  lemma ExactlyOnce(ds: seq<Date>, holidays: set<Date>, disabled: set<Date>, forced: set<Date>,
                    order: seq<Date>, wantOvertime: bool, c: Constraint)
    requires Increasing(ds) && Enumerates(order, forced)
    ensures multiset(Spec(ds, holidays, disabled, order, wantOvertime).constraints)[c]
      == if Expected(c, ds, holidays, disabled, forced) then 1 else 0
  {
    IncreasingDistinct(ds);
    SpecDistinct(ds, holidays, disabled, forced, order, wantOvertime);
    SpecConstraints(ds, holidays, disabled, forced, order, wantOvertime, c);
    DistinctCount(Spec(ds, holidays, disabled, order, wantOvertime).constraints, c);
  }

  /** The month groups partition the dates: each date is in the group of its
      own month and of no other, and that group has a constraint. */
  lemma MonthPartition(ds: seq<Date>, d: Date, k: YearMonth)
    requires d in ds
    ensures MonthOf(d) in MonthSet(ds) && MonthOf(d) in SortedMonths(MonthSet(ds))
    ensures d in InMonth(ds, k) <==> k == MonthOf(d)
  {
    SortedMonthsMeaning(MonthSet(ds));
    InMonthMembers(ds, k);
  }

  // ---------------------------------------------------------------------
  // What a solution of the problem satisfies

  /** Values for the `yes_no` and `hours` variables, by date. */
  datatype Assignment = Assignment(yesNo: map<Date, real>, hours: map<Date, real>)

  function Yes(a: Assignment, d: Date): real {
    if d in a.yesNo then a.yesNo[d] else 0.0
  }

  function Hours(a: Assignment, d: Date): real {
    if d in a.hours then a.hours[d] else 0.0
  }

  /** `lpSum([yes_no[d] for d in ds])`. */
  function SumYes(a: Assignment, ds: seq<Date>): real {
    if ds == [] then 0.0 else Yes(a, ds[0]) + SumYes(a, ds[1..])
  }

  /** `lpSum([hours[d] for d in ds])`. */
  function SumHours(a: Assignment, ds: seq<Date>): real {
    if ds == [] then 0.0 else Hours(a, ds[0]) + SumHours(a, ds[1..])
  }

  predicate Admits(v: VarDecl, x: real) {
    match v
    case Binary => x == 0.0 || x == 1.0
    case Continuous(lo, hi) => lo <= x <= hi
  }

  predicate Holds(a: Assignment, c: Constraint) {
    match c
    case ForceZero(d) => Yes(a, d) == 0.0
    case Exactly10Days(_, days) => SumYes(a, days) == WorkdaysPerMonth as real
    case MinHoursIfWorked(d) => Hours(a, d) >= MinWorkedHours * Yes(a, d)
    case Max14Hours(d) => Hours(a, d) <= MaxDayHours
    case ZeroIfNotWorked(d) => Hours(a, d) <= LinkFactor * Yes(a, d)
    case ForcedDay(d) => Yes(a, d) == 1.0
    case Max28HoursWindow(_, days) => SumHours(a, days) <= MaxWindowHours
  }

  /** Every variable has a value within its declaration and every constraint holds. */
  predicate Satisfies(a: Assignment, p: Problem) {
    && (forall d | d in p.yesNo :: d in a.yesNo && Admits(p.yesNo[d], a.yesNo[d]))
    && (forall d | d in p.hours :: d in a.hours && Admits(p.hours[d], a.hours[d]))
    && (forall c | c in p.constraints :: Holds(a, c))
  }

  /** Day by day, a solution chooses each date or not; a chosen date has
      between 7.75 and 14 hours and any other has none; a day that may not be
      worked is not chosen, and a forced day is. */
  lemma DayInvariants(a: Assignment, ds: seq<Date>, holidays: set<Date>, disabled: set<Date>, forced: set<Date>,
                      order: seq<Date>, wantOvertime: bool, d: Date)
    requires Enumerates(order, forced) && d in ds
    requires Satisfies(a, Spec(ds, holidays, disabled, order, wantOvertime))
    ensures Yes(a, d) == 0.0 || Yes(a, d) == 1.0
    ensures Yes(a, d) == 0.0 ==> Hours(a, d) == 0.0
    ensures Yes(a, d) == 1.0 ==> MinWorkedHours <= Hours(a, d) <= MaxDayHours
    ensures !Feasible(d, holidays, disabled) ==> Yes(a, d) == 0.0
    ensures d in forced ==> Yes(a, d) == 1.0
  {
    var p := Spec(ds, holidays, disabled, order, wantOvertime);
    assert d in p.yesNo && d in p.hours;
    SpecConstraints(ds, holidays, disabled, forced, order, wantOvertime, MinHoursIfWorked(d));
    SpecConstraints(ds, holidays, disabled, forced, order, wantOvertime, ZeroIfNotWorked(d));
    if !Feasible(d, holidays, disabled) {
      SpecConstraints(ds, holidays, disabled, forced, order, wantOvertime, ForceZero(d));
    }
    if d in forced {
      SpecConstraints(ds, holidays, disabled, forced, order, wantOvertime, ForcedDay(d));
    }
  }

  /** A forced day that may not be worked makes the problem unsatisfiable. */
  lemma ForcedInfeasibleUnsat(a: Assignment, ds: seq<Date>, holidays: set<Date>, disabled: set<Date>, forced: set<Date>,
                              order: seq<Date>, wantOvertime: bool, d: Date)
    requires Enumerates(order, forced) && d in ds && d in forced && !Feasible(d, holidays, disabled)
    ensures !Satisfies(a, Spec(ds, holidays, disabled, order, wantOvertime))
  {
    SpecConstraints(ds, holidays, disabled, forced, order, wantOvertime, ForceZero(d));
    SpecConstraints(ds, holidays, disabled, forced, order, wantOvertime, ForcedDay(d));
  }

  // ---------------------------------------------------------------------
  // Ten workdays in every month

  /** The dates of ds in month k that an assignment chooses. */
  function WorkedInMonth(a: Assignment, ds: seq<Date>, k: YearMonth): set<Date> {
    set d | d in ds && MonthOf(d) == k && Yes(a, d) == 1.0
  }

  lemma DistinctTail<T>(s: seq<T>)
    requires s != []
    ensures Distinct(s) <==> s[0] !in s[1..] && Distinct(s[1..])
  {
    if s[0] !in s[1..] && Distinct(s[1..]) {
      forall i, j | 0 <= i < j < |s| ensures s[i] != s[j] {
        if i > 0 {
          assert s[i] == s[1..][i - 1] && s[j] == s[1..][j - 1];
        } else {
          assert s[j] == s[1..][j - 1];
        }
      }
    }
    if Distinct(s) {
      forall i, j | 0 <= i < j < |s[1..]| ensures s[1..][i] != s[1..][j] {
        assert s[1..][i] == s[i + 1] && s[1..][j] == s[j + 1];
      }
    }
  }

  /** InMonth keeps exactly the dates of month k, and keeps them distinct. */
  lemma {:induction false} InMonthMembers(ds: seq<Date>, k: YearMonth)
    ensures forall x :: x in InMonth(ds, k) <==> x in ds && MonthOf(x) == k
    ensures Distinct(ds) ==> Distinct(InMonth(ds, k))
  {
    if ds != [] {
      var rest := InMonth(ds[1..], k);
      InMonthMembers(ds[1..], k);
      assert forall x :: x in ds <==> x == ds[0] || x in ds[1..];
      if Distinct(ds) {
        DistinctTail(ds);
        if MonthOf(ds[0]) == k {
          assert InMonth(ds, k) == [ds[0]] + rest;
          assert ([ds[0]] + rest)[1..] == rest;
          DistinctTail([ds[0]] + rest);
        }
      }
    }
  }

  /** The dates of s whose `yes_no` value is 1. */
  function Chosen(a: Assignment, s: seq<Date>): set<Date> {
    set d | d in s && Yes(a, d) == 1.0
  }

  /** Over distinct days whose `yes_no` values are 0 or 1, the sum counts the chosen days. */
  lemma {:induction false} SumYesCounts(a: Assignment, s: seq<Date>)
    requires Distinct(s)
    requires forall d | d in s :: Yes(a, d) == 0.0 || Yes(a, d) == 1.0
    ensures SumYes(a, s) == |Chosen(a, s)| as real
  {
    if s == [] {
      assert Chosen(a, s) == {};
    } else {
      DistinctTail(s);
      var t := s[1..];
      SumYesCounts(a, t);
      assert s[0] !in Chosen(a, t);
      if Yes(a, s[0]) == 1.0 {
        assert Chosen(a, s) == Chosen(a, t) + {s[0]};
      } else {
        assert Chosen(a, s) == Chosen(a, t);
      }
    }
  }

  lemma IncreasingDistinct(ds: seq<Date>)
    requires Increasing(ds)
    ensures Distinct(ds)
  {
  }

  /** A solution chooses exactly ten dates in every month of the range. */
  lemma MonthInvariant(a: Assignment, ds: seq<Date>, holidays: set<Date>, disabled: set<Date>, forced: set<Date>,
                       order: seq<Date>, wantOvertime: bool, k: YearMonth)
    requires Enumerates(order, forced) && Increasing(ds) && k in MonthSet(ds)
    requires Satisfies(a, Spec(ds, holidays, disabled, order, wantOvertime))
    ensures |WorkedInMonth(a, ds, k)| == WorkdaysPerMonth
  {
    var days := InMonth(ds, k);
    SpecConstraints(ds, holidays, disabled, forced, order, wantOvertime, Exactly10Days(k, days));
    IncreasingDistinct(ds);
    InMonthMembers(ds, k);
    forall d | d in days ensures Yes(a, d) == 0.0 || Yes(a, d) == 1.0 {
      DayInvariants(a, ds, holidays, disabled, forced, order, wantOvertime, d);
    }
    SumYesCounts(a, days);
    assert Chosen(a, days) == WorkedInMonth(a, ds, k);
  }

  /** The dates of ds in month k that may be worked. */
  function WorkableInMonth(ds: seq<Date>, k: YearMonth, holidays: set<Date>, disabled: set<Date>): set<Date> {
    set d | d in ds && MonthOf(d) == k && Feasible(d, holidays, disabled)
  }

  lemma {:induction false} SubsetSize<T>(a: set<T>, b: set<T>)
    requires a <= b
    ensures |a| <= |b|
    decreases |a|
  {
    if a != {} {
      var x :| x in a;
      SubsetSize(a - {x}, b - {x});
    }
  }

  /** A month of the range with fewer than ten dates that may be worked makes
      the problem unsatisfiable: no assignment can choose ten of its dates. */
  lemma FewWorkableUnsat(a: Assignment, ds: seq<Date>, holidays: set<Date>, disabled: set<Date>, forced: set<Date>,
                         order: seq<Date>, wantOvertime: bool, k: YearMonth)
    requires Enumerates(order, forced) && Increasing(ds) && k in MonthSet(ds)
    requires |WorkableInMonth(ds, k, holidays, disabled)| < WorkdaysPerMonth
    ensures !Satisfies(a, Spec(ds, holidays, disabled, order, wantOvertime))
  {
    if Satisfies(a, Spec(ds, holidays, disabled, order, wantOvertime)) {
      var worked, workable := WorkedInMonth(a, ds, k), WorkableInMonth(ds, k, holidays, disabled);
      MonthInvariant(a, ds, holidays, disabled, forced, order, wantOvertime, k);
      forall d | d in worked ensures d in workable {
        DayInvariants(a, ds, holidays, disabled, forced, order, wantOvertime, d);
      }
      SubsetSize(worked, workable);
    }
  }

  /** In particular, a month of the range whose every date is a weekend, a
      holiday or disabled makes the problem unsatisfiable. */
  lemma BlockedMonthUnsat(a: Assignment, ds: seq<Date>, holidays: set<Date>, disabled: set<Date>, forced: set<Date>,
                          order: seq<Date>, wantOvertime: bool, k: YearMonth)
    requires Enumerates(order, forced) && Increasing(ds) && k in MonthSet(ds)
    requires forall d | d in ds && MonthOf(d) == k :: !Feasible(d, holidays, disabled)
    ensures !Satisfies(a, Spec(ds, holidays, disabled, order, wantOvertime))
  {
    assert WorkableInMonth(ds, k, holidays, disabled) == {};
    FewWorkableUnsat(a, ds, holidays, disabled, forced, order, wantOvertime, k);
  }

  /** Disabling more days only removes solutions: an assignment that
      satisfies the problem with the larger disabled set satisfies it with the
      smaller one, so adding disabled days never makes an unsatisfiable
      problem satisfiable. */
  lemma MoreDisabledDays(a: Assignment, ds: seq<Date>, holidays: set<Date>, disabled: set<Date>, disabled2: set<Date>,
                         forced: set<Date>, order: seq<Date>, wantOvertime: bool)
    requires Enumerates(order, forced) && disabled <= disabled2
    requires Satisfies(a, Spec(ds, holidays, disabled2, order, wantOvertime))
    ensures Satisfies(a, Spec(ds, holidays, disabled, order, wantOvertime))
  {
    forall c | c in Spec(ds, holidays, disabled, order, wantOvertime).constraints ensures Holds(a, c) {
      SpecConstraints(ds, holidays, disabled, forced, order, wantOvertime, c);
      SpecConstraints(ds, holidays, disabled2, forced, order, wantOvertime, c);
    }
  }

  // ---------------------------------------------------------------------
  // At most 28 hours in seven consecutive days

  lemma {:induction false} BetweenAppend(s: seq<Date>, t: seq<Date>, lo: Ymd, hi: Ymd)
    ensures Between(s + t, lo, hi) == Between(s, lo, hi) + Between(t, lo, hi)
  {
    if s == [] {
      assert s + t == t;
    } else {
      assert (s + t)[0] == s[0] && (s + t)[1..] == s[1..] + t;
      BetweenAppend(s[1..], t, lo, hi);
    }
  }

  lemma {:induction false} BetweenAll(s: seq<Date>, lo: Ymd, hi: Ymd)
    requires forall i | 0 <= i < |s| :: NotAfter(lo, s[i]) && NotAfter(s[i], hi)
    ensures Between(s, lo, hi) == s
  {
    if s != [] {
      BetweenAll(s[1..], lo, hi);
    }
  }

  lemma {:induction false} BetweenNone(s: seq<Date>, lo: Ymd, hi: Ymd)
    requires forall i | 0 <= i < |s| :: !(NotAfter(lo, s[i]) && NotAfter(s[i], hi))
    ensures Between(s, lo, hi) == []
  {
    if s != [] {
      BetweenNone(s[1..], lo, hi);
    }
  }

  /** In a list of consecutive days, the day m places after ds[i] is ds[i] + m days. */
  lemma {:induction false} ConsecutiveAddDays(ds: seq<Date>, i: nat, m: nat)
    requires Consecutive(ds) && i + m < |ds|
    ensures ds[i + m] == AddDays(ds[i], m)
  {
    if m > 0 {
      ConsecutiveAddDays(ds, i, m - 1);
      AddDaysLast(ds[i], m - 1);
    }
  }

  /** The dates listed before ds[i] fall before its window. */
  lemma WindowPrefix(ds: seq<Date>, i: nat)
    requires Increasing(ds) && i < |ds|
    ensures Between(ds[..i], ds[i], AddDays(ds[i], WindowSpan)) == []
  {
    forall k | 0 <= k < i ensures !NotAfter(ds[i], ds[..i][k]) {
      assert ds[..i][k] == ds[k] && Before(ds[k], ds[i]);
    }
    BetweenNone(ds[..i], ds[i], AddDays(ds[i], WindowSpan));
  }

  /** The seven dates from ds[i] on (fewer at the end) lie in its window. */
  lemma WindowInside(ds: seq<Date>, i: nat, j: nat)
    requires Consecutive(ds) && i < j <= |ds| && j <= i + WindowSpan + 1
    ensures Between(ds[i..j], ds[i], AddDays(ds[i], WindowSpan)) == ds[i..j]
  {
    var x := ds[i];
    forall k | 0 <= k < j - i ensures NotAfter(x, ds[i..j][k]) && NotAfter(ds[i..j][k], AddDays(x, WindowSpan)) {
      assert ds[i..j][k] == ds[i + k];
      ConsecutiveAddDays(ds, i, k);
      if k > 0 {
        AddDaysIncreasing(x, 0, k);
      }
      if k < WindowSpan {
        AddDaysIncreasing(x, k, WindowSpan);
      }
    }
    BetweenAll(ds[i..j], x, AddDays(x, WindowSpan));
  }

  /** The dates from seven days after ds[i] on fall after its window. */
  lemma WindowSuffix(ds: seq<Date>, i: nat)
    requires Consecutive(ds) && Increasing(ds) && i + WindowSpan + 1 < |ds|
    ensures Between(ds[i + WindowSpan + 1..], ds[i], AddDays(ds[i], WindowSpan)) == []
  {
    var j := i + WindowSpan + 1;
    var x := ds[i];
    var hi := AddDays(x, WindowSpan);
    ConsecutiveAddDays(ds, i, WindowSpan + 1);
    AddDaysIncreasing(x, WindowSpan, WindowSpan + 1);
    assert Before(hi, ds[j]);
    forall k | 0 <= k < |ds[j..]| ensures !NotAfter(ds[j..][k], hi) {
      assert ds[j..][k] == ds[j + k];
      if k > 0 {
        assert Before(ds[j], ds[j + k]);
      }
    }
    BetweenNone(ds[j..], x, hi);
  }

  /** The window of the i-th date of a run of consecutive days is the next
      seven listed dates, fewer at the end of the range. */
  lemma WindowIsSlice(ds: seq<Date>, i: nat)
    requires Consecutive(ds) && i < |ds|
    ensures var j := if i + WindowSpan + 1 <= |ds| then i + WindowSpan + 1 else |ds|;
      Window(ds, ds[i]) == ds[i..j]
  {
    var j := if i + WindowSpan + 1 <= |ds| then i + WindowSpan + 1 else |ds|;
    var x := ds[i];
    var hi := AddDays(x, WindowSpan);
    ConsecutiveIncreasing(ds);
    WindowPrefix(ds, i);
    WindowInside(ds, i, j);
    if j < |ds| {
      WindowSuffix(ds, i);
    } else {
      assert ds[j..] == [];
    }
    SliceThree(ds, i, j);
    BetweenThree(ds[..i], ds[i..j], ds[j..], x, hi);
  }

  lemma SliceThree<T>(s: seq<T>, i: nat, j: nat)
    requires i <= j <= |s|
    ensures s == s[..i] + s[i..j] + s[j..]
  {
  }

  lemma BetweenThree(s: seq<Date>, t: seq<Date>, u: seq<Date>, lo: Ymd, hi: Ymd)
    requires Between(s, lo, hi) == [] && Between(t, lo, hi) == t && Between(u, lo, hi) == []
    ensures Between(s + t + u, lo, hi) == t
  {
    BetweenAppend(s + t, u, lo, hi);
    BetweenAppend(s, t, lo, hi);
    assert [] + t + [] == t;
  }

  /** A solution works at most 28 hours in any seven consecutive listed days. */
  lemma WindowInvariant(a: Assignment, ds: seq<Date>, holidays: set<Date>, disabled: set<Date>, forced: set<Date>,
                        order: seq<Date>, wantOvertime: bool, i: nat)
    requires Enumerates(order, forced) && Consecutive(ds) && i < |ds|
    requires Satisfies(a, Spec(ds, holidays, disabled, order, wantOvertime))
    ensures var j := if i + WindowSpan + 1 <= |ds| then i + WindowSpan + 1 else |ds|;
      SumHours(a, ds[i..j]) <= MaxWindowHours
  {
    SpecConstraints(ds, holidays, disabled, forced, order, wantOvertime, Max28HoursWindow(ds[i], Window(ds, ds[i])));
    WindowIsSlice(ds, i);
  }
}
