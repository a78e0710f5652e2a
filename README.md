# A verified model of the ra-master-scheduler core

`ra-master-scheduler.py` plans workdays across a range of months. It expands
the months into dates. It reads forced dates from a short comma-separated
syntax (`2025-2-1,2,5,3-25,20,2026-1-15`). It builds a mixed-integer model for
an external solver: exactly ten workdays a month, 7.75 to 14 hours on a worked
day and none otherwise, at most 28 hours in any 7-day window, and forced and
forbidden days pinned. It then reads the solver's answer back into a schedule
and prints a table that classifies every day.

This project models those pieces in Dafny and proves what they promise:

- `results.dfy` (module `Results`): `Option` and `Result` with failure propagation.
- `calendar.dfy` (module `Calendar`): proleptic Gregorian dates in the range of
  Python's `datetime.date` (years 1 to 9999). It covers `_last_day_of_month`,
  `generate_date_list`, weekdays, `d + timedelta(days=k)` and `month_range`.
- `text.dfy` (module `Text`): `str.strip`, `str.split` and `int()` on strings.
- `short_dates.dfy` (module `ShortDates`): `parse_short_date_input` and its validators.
- `planner.dfy` (module `Planner`):
  - the model that `plan_workdays_multiple_months` builds, as a list of constraint records, loop by loop;
  - a `Satisfies` predicate for assignments;
  - the schedule invariants every satisfying assignment meets.
- `solution.dfy` (module `Solution`): how the solver's status and values become the returned schedule.
- `display.dfy` (module `Display`): `get_day_type` and the rows of the table `display_schedule` prints, including the 7-day sum.

Model decisions:

- **Solver left abstract.** The solver is not modelled. An assignment of values to the `yes_no` and `hours` variables, the status string and the reported values are parameters. The theorems hold for every assignment that satisfies the built problem.
- **Exact hours.** Hours are exact `real` values (rationals), not floats, so 7.75 and 28 are exact.
- **Forced days in any order.** The forced days are a Python set, so the loop over them visits them in an order the model does not fix. The ghost out-parameter `order` gives that order. Every property holds for every order.
- **Overflow past date.max.** Python raises `OverflowError` when date arithmetic passes 9999-12-31. That case is modelled as `Err(Overflow)`. `generate_date_list` raises it for any non-empty range that ends in December 9999: it steps past the last day. `_last_day_of_month` raises it for month 0 of year 1.
- **Month 0.** `_last_day_of_month(y, 0)` is accepted and returns December 31 of year `y - 1`, as written.
- **The window end never overflows.** `d + timedelta(days=6)` in the window loop is proved never to overflow for a range that `generate_date_list` accepts. So it has no error branch.
- **Digit limit.** `int()` and `str()` refuse decimal text of more than 4300 digits, the default of `sys.get_int_max_str_digits()` in the Python versions that have the limit. Leading zeros count and underscores do not. `Text.ParseInt` refuses such text, so a day written with 4300 leading zeros is rejected, as in Python.
- **No sort needed.** `sorted(date_list)` is the identity on a list that `generate_date_list` returns, because that list is strictly increasing (`Calendar.DateListMeaning`). The model uses the list as it is.

## Model

| member | source | states |
|---|---|---|
| Calendar.DaysInMonth | src/ra-master-scheduler.py:40-44 | every month has 28 to 31 days |
| Calendar.NextDay | src/ra-master-scheduler.py:57 | the next calendar day is a calendar day strictly after the given one |
| Calendar.PrevDay | src/ra-master-scheduler.py:44 | the previous calendar day is a calendar day strictly before the given one |
| Calendar.NextDayPrevDay | src/ra-master-scheduler.py:44 | stepping one day forward and one back, in either order, returns the same day |
| Calendar.NoDayBetween | src/ra-master-scheduler.py:55-57 | no calendar day lies strictly between a day and the day after it |
| Calendar.AddOneDay | src/ra-master-scheduler.py:57 | `+ timedelta(days=1)` raises exactly at 9999-12-31 and otherwise gives the next day |
| Calendar.SubtractOneDay | src/ra-master-scheduler.py:44 | `- timedelta(days=1)` raises exactly at 0001-01-01 and otherwise gives the previous day |
| Calendar.LastDayOfMonthMeaning | src/ra-master-scheduler.py:40-44 | `_last_day_of_month` (defined identically at :21-25) succeeds exactly for years 1..9999 and months 0..12, except month 0 of year 1. For months 1..12 it gives the DaysInMonth-th day: December 31, and February 29 exactly in leap years. Month 0 gives December 31 of the year before |
| Calendar.Weekday | src/ra-master-scheduler.py:103 | `weekday()` lies in 0..6 |
| Calendar.NextDayOrdinal | src/ra-master-scheduler.py:57 | the next day has the next ordinal, so NextDay is adding one day |
| Calendar.NextDayWeekday | src/ra-master-scheduler.py:103 | weekdays advance by one, cyclically, from day to day |
| Calendar.WeekdayExamples | src/ra-master-scheduler.py:103 | 2025-03-01 is a Saturday (5) and 2025-03-03 a Monday (0), so Monday is 0 |
| Calendar.AddDaysOrdinal | src/ra-master-scheduler.py:159 | adding k days adds k to the ordinal, as `timedelta(days=k)` does |
| Calendar.AddDaysLast | src/ra-master-scheduler.py:159 | adding k + 1 days is adding k days and then one more |
| Calendar.AddDaysIncreasing | src/ra-master-scheduler.py:159-160 | adding more days gives a strictly later day |
| Calendar.AddDaysInRange | src/ra-master-scheduler.py:159 | adding up to 30 days to a day before December 9999 (or early enough in it) stays a valid date |
| Calendar.DaysFromOverflow | src/ra-master-scheduler.py:54-57 | the loop of `generate_date_list` fails exactly when the range is non-empty and ends on 9999-12-31 |
| Calendar.DaysFromContents | src/ra-master-scheduler.py:54-59 | the loop lists the days from start to end in order, as consecutive days. The list is empty exactly when end precedes start, and a date is in it exactly when it lies between them |
| Calendar.DaysFromLength | src/ra-master-scheduler.py:54-59 | the number of listed days is the ordinal distance plus one, or 0 |
| Calendar.ConsecutiveIncreasing | src/ra-master-scheduler.py:54-59 | consecutive days are strictly increasing, hence free of duplicates |
| Calendar.DateListMeaning | src/ra-master-scheduler.py:46-59 | for valid start and end months the list starts on the 1st of the start month and ends on the last day of the end month. It is consecutive, strictly increasing, and holds exactly the dates between those two days. It is empty exactly when the end month precedes the start month, and it fails only for an end in December 9999 |
| Calendar.DateListShape | src/ra-master-scheduler.py:46-59 | every list that `generate_date_list` returns is consecutive and strictly increasing |
| Calendar.GenerateDateList | src/ra-master-scheduler.py:46-59 | the `while` loop appending to `all_dates` computes DateList, including its errors |
| Calendar.MonthsFromContents | src/ra-master-scheduler.py:367-374 | for valid months, `month_range` yields every month from the first to the last, in increasing order, each once, each followed by its next month. It yields nothing exactly when the last month precedes the first |
| Calendar.MonthRange | src/ra-master-scheduler.py:367-374 | the generator loop stepping `y` and `m` yields MonthsFrom |
| Text.StripMeaning | src/ra-master-scheduler.py:195 | `strip()` removes a leading and a trailing run of whitespace and leaves a result that neither starts nor ends with whitespace |
| Text.Split | src/ra-master-scheduler.py:195 | `split(sep)` gives at least one piece, and no piece holds the separator |
| Text.JoinSplit | src/ra-master-scheduler.py:195 | joining the pieces of a split with the separator gives back the string |
| Text.SplitJoin | src/ra-master-scheduler.py:195 | splitting a separator-free non-empty list of pieces, joined, gives back the pieces |
| Text.ParseIntToString | src/ra-master-scheduler.py:206-208 | `int(str(n)) == n` for every integer n of at most 4300 digits, which are the integers `str()` prints |
| Text.ParseNumeral | src/ra-master-scheduler.py:206-208 | `int()` reads a numeral (digits with single underscores between them) of at most 4300 digits as the number its digits denote |
| Text.LeadingZero | src/ra-master-scheduler.py:206-208 | below the digit limit a leading `0` does not change what `int()` reads, so `int('02') == int('2')` |
| Text.TooManyDigits | src/ra-master-scheduler.py:206-208 | a numeral of more than 4300 digits, underscores not counted, is refused by `int()` |
| Text.LeadingZeroAtLimit | src/ra-master-scheduler.py:206-208 | at exactly 4300 digits a numeral is read, and the same numeral after a `0` is refused |
| Text.SeparatorNotStripped | src/ra-master-scheduler.py:195-206 | the information separator U+001C is whitespace to `strip()` but not to `int()`: `'2025\x1c'.strip()` is `'2025'`, and `int('2025\x1c')` raises |
| ShortDates.ToInt | src/ra-master-scheduler.py:206-208 | `int()` succeeds exactly on integer text, with its value, and otherwise raises for that text. Integer text may be surrounded by the whitespace `int()` skips, which is `strip()`'s whitespace without U+001C..U+001F. Its numeral has at most 4300 digits |
| ShortDates.CheckYearMonth | src/ra-master-scheduler.py:251-256 | accepts exactly months 1..12 of years 1..9999. A bad month is reported first, then a bad year |
| ShortDates.CheckValidDate | src/ra-master-scheduler.py:258-260 | accepts exactly the existing dates and gives that date |
| ShortDates.ParseShortDateInput | src/ra-master-scheduler.py:190-249 | the `for` loop over the tokens, mutating the current year, the current month and the result set, computes ParseLine, errors included |
| ShortDates.ParseFromAppend | src/ra-master-scheduler.py:201-247 | reading a + b is reading a, then b from where a stopped, and an error in a ends the run |
| ShortDates.StepEffect | src/ra-master-scheduler.py:201-247 | an accepted token keeps year and month set together and valid, keeps every date, and adds at most one date, which lies in the new current year and month |
| ShortDates.ParseFromGrows | src/ra-master-scheduler.py:201-247 | over a run of tokens the context stays valid and dates are only added, at most one per token |
| ShortDates.FullDateStep | src/ra-master-scheduler.py:203-213 | a token of three parts that `int()` reads as y, m and d, however they are spelt, adds that date and sets both year and month, in every context. A nonexistent date rejects it |
| ShortDates.PairStep | src/ra-master-scheduler.py:215-236 | a token of two parts that `int()` reads as a and b: with a > 12, or with no year known yet, it is a year-month that is validated, sets the context and adds nothing. Otherwise it is month a, day b of the current year: it adds that date and makes a the current month |
| ShortDates.DayStep | src/ra-master-scheduler.py:237-245 | a token without `-` that `int()` reads as d is a day of the current year and month. With no year and month known it raises |
| ShortDates.FullTokenStep | src/ra-master-scheduler.py:203-213 | FullDateStep for `str(y)-str(m)-str(d)`, for numbers within the digit limit |
| ShortDates.PairTokenStep | src/ra-master-scheduler.py:215-236 | PairStep for `str(a)-str(b)`, for numbers within the digit limit |
| ShortDates.DayTokenStep | src/ra-master-scheduler.py:237-245 | DayStep for `str(d)`, for a number within the digit limit |
| ShortDates.PaddedTokenStep | src/ra-master-scheduler.py:203-213 | a date with zero-padded month and day, `y-0m-0d`, is read as FullDateStep reads `y-m-d`, while the padding stays within the digit limit |
| ShortDates.PaddedFullDate | src/ra-master-scheduler.py:203-213 | `2025-02-01` adds 2025-02-01 and makes February 2025 current, in every context |
| ShortDates.PaddedDayOverLimit | src/ra-master-scheduler.py:203-208 | `2025-2-` followed by the day 1 with 4300 or more leading zeros is rejected at the day's `int()`, in every context |
| ShortDates.DateFits | src/ra-master-scheduler.py:206-208 | the year, month and day of every date are within the digit limit |
| ShortDates.MalformedFails | src/ra-master-scheduler.py:203-247 | a token with more than three parts, a part that is not an integer, or three integers that are not a date, fails in every context |
| ShortDates.MalformedRejectsRun | src/ra-master-scheduler.py:201-247 | one such token anywhere makes the whole run fail, from any state |
| ShortDates.MalformedRejectsLine | src/ra-master-scheduler.py:190-249 | a malformed piece anywhere rejects the whole line, without returning a result set |
| ShortDates.BlankPieceIgnored | src/ra-master-scheduler.py:195 | a piece that is blank after stripping changes nothing |
| ShortDates.EmptyLine | src/ra-master-scheduler.py:195-249 | the empty line gives the empty set |
| ShortDates.BareDayFirst | src/ra-master-scheduler.py:237-245 | a line whose first piece is a bare day, in any spelling `int()` accepts, is rejected, because no year and month are known |
| ShortDates.FirstPartRejected | src/ra-master-scheduler.py:203-225 | a first token of two or three parts whose first part `int()` refuses rejects the line, naming that part |
| ShortDates.SeparatorInYearRejected | src/ra-master-scheduler.py:195-206 | `2025\x1c-2-1` is rejected at the year's `int()`, although `strip()` would drop the separator |
| ShortDates.ExampleShape | src/ra-master-scheduler.py:201-247 | from any state: a full date, two days, a month-day, a day and another full date add exactly those six dates and leave the last full date's year and month current |
| ShortDates.ExampleLine | src/ra-master-scheduler.py:195-247 | any line spelling that shape with `str()` numbers and commas is read as exactly its six dates |
| ShortDates.DocstringExample | src/ra-master-scheduler.py:192 | `'2025-2-1,2,5,3-25,20,2026-1-15'` reads as exactly 2025-02-01, 2025-02-02, 2025-02-05, 2025-03-25, 2025-03-20 and 2026-01-15 |
| Planner.SortedMonthsMeaning | src/ra-master-scheduler.py:137 | `sorted(list({(d.year, d.month) ...}))` holds each month of the set once, in strictly increasing order |
| Planner.DeclareVariables | src/ra-master-scheduler.py:101-134 | the variable loop declares one binary `yes_no` and one `hours` in [0, 14] per date. It adds a ForceZero exactly for the dates that are weekends, holidays or disabled, whether forced or not. The computed `yes_no_ub` changes nothing |
| Planner.AddMonthConstraints | src/ra-master-scheduler.py:137-143 | one Exactly10Days per month, in increasing order, each over exactly the dates of that month |
| Planner.AddLinkConstraints | src/ra-master-scheduler.py:147-150 | for every date, in order: hours >= 7.75·yes_no, hours <= 14 and hours <= 28·yes_no |
| Planner.AddForcedConstraints | src/ra-master-scheduler.py:153-154 | one ForcedDay per forced day, visiting each once. The loop fails (KeyError) exactly when some forced day has no variable, and the error names such a day |
| Planner.AddWindowConstraints | src/ra-master-scheduler.py:157-164 | over the strictly increasing date list, exactly one Max28HoursWindow per start date, in date order, over the listed dates from d through d + 6 days |
| Planner.WindowEndIsDate | src/ra-master-scheduler.py:159 | `d + timedelta(days=6)` never overflows for a date of an accepted range |
| Planner.BuildModel | src/ra-master-scheduler.py:88-168 | a failing date range fails the build. Otherwise the build fails exactly when a forced day lies outside the range. On success the problem is Spec: maximize exactly when overtime is wanted, the objective over all dates, the variables and constraints above |
| Planner.PerDayMembers | src/ra-master-scheduler.py:101-164 | a per-day loop holds exactly the constraints it adds for the days it has visited |
| Planner.PerMonthMembers | src/ra-master-scheduler.py:138-143 | the month loop holds exactly one ten-day constraint for each month it has visited |
| Planner.PinMembers | src/ra-master-scheduler.py:120-125 | the variable loop's constraints are exactly the ForceZero of each date that may not be worked |
| Planner.MonthMembers | src/ra-master-scheduler.py:137-143 | the month loop's constraints are exactly one Exactly10Days per month that has dates, over that month's dates |
| Planner.LinkMembers | src/ra-master-scheduler.py:147-150 | the linkage loop's constraints are exactly the three linking constraints of each date |
| Planner.ForceMembers | src/ra-master-scheduler.py:153-154 | the forced loop's constraints are exactly the ForcedDay of each forced day, in any visiting order |
| Planner.WindowMembers | src/ra-master-scheduler.py:157-164 | the window loop's constraints are exactly the window of each start date |
| Planner.SpecConstraints | src/ra-master-scheduler.py:101-164 | a constraint is in the problem exactly when it is Expected: the ForceZero of a day that may not be worked, a month's ten-day constraint, a date's links, a forced day's ForcedDay or a date's window |
| Planner.PerDayDistinct | src/ra-master-scheduler.py:101-164 | over distinct dates, a per-day loop never adds a constraint twice |
| Planner.PerMonthDistinct | src/ra-master-scheduler.py:138-143 | over distinct months, the month loop never adds a constraint twice |
| Planner.SpecDistinct | src/ra-master-scheduler.py:101-164 | over distinct dates, no constraint of the problem appears twice |
| Planner.ExactlyOnce | src/ra-master-scheduler.py:101-164 | every expected constraint appears exactly once, and nothing else appears. This gives one ForceZero per day that may not be worked, one ten-day constraint per month with dates (partial or short months included), and one window per start date |
| Planner.MonthPartition | src/ra-master-scheduler.py:137-139 | every date belongs to the group of its own month and to no other, and that month is among the sorted months |
| Planner.DayInvariants | src/ra-master-scheduler.py:120-154 | in every satisfying assignment each date's `yes_no` is 0 or 1. yes_no = 0 gives 0 hours, and yes_no = 1 gives 7.75 to 14 hours. A day that may not be worked has yes_no = 0 and a forced day has yes_no = 1 |
| Planner.ForcedInfeasibleUnsat | src/ra-master-scheduler.py:111-125 | a forced day that is a weekend, a holiday or disabled makes the problem unsatisfiable |
| Planner.MoreDisabledDays | src/ra-master-scheduler.py:101-125 | disabling more days only removes solutions: an assignment that satisfies the problem with more disabled days satisfies it with fewer |
| Planner.InMonthMembers | src/ra-master-scheduler.py:139 | `dates_in_month` holds exactly the dates of that month, and holds them once each |
| Planner.SumYesCounts | src/ra-master-scheduler.py:141 | over distinct dates with 0/1 values, the `lpSum` of `yes_no` counts the chosen dates |
| Planner.MonthInvariant | src/ra-master-scheduler.py:137-143 | every satisfying assignment chooses exactly ten dates in each month of the range |
| Planner.FewWorkableUnsat | src/ra-master-scheduler.py:101-143 | a month of the range with fewer than ten workable dates (not weekend, holiday or disabled) makes the problem unsatisfiable |
| Planner.BlockedMonthUnsat | src/ra-master-scheduler.py:101-143 | a month of the range whose every date is a weekend, a holiday or disabled makes the problem unsatisfiable |
| Planner.WindowIsSlice | src/ra-master-scheduler.py:157-160 | the window of the i-th date is the next min(7, remaining) listed dates, cut off at the end of the range |
| Planner.WindowInvariant | src/ra-master-scheduler.py:157-164 | every satisfying assignment has at most 28 hours in any seven consecutive listed dates |
| Solution.ScheduleMeaning | src/ra-master-scheduler.py:173-185 | a rejected status gives `{}`. An accepted one gives exactly the dates of the range as keys, each with its reported value, or 0.0 when it has none |
| Solution.ExtractSchedule | src/ra-master-scheduler.py:173-185 | the status test and the collecting loop compute Schedule |
| Solution.PlanWorkdays | src/ra-master-scheduler.py:61-185 | the whole function: a range error or a forced day outside the range fails, and otherwise the result is Schedule for the solver's status and values |
| Solution.SolutionDay | src/ra-master-scheduler.py:145-185 | in the schedule of a satisfying assignment every date is a key. Its hours are 0 or 7.75..14, and positive exactly when it is chosen. A day that may not be worked has 0 hours, and a forced day has at least 7.75 |
| Solution.SolutionMonth | src/ra-master-scheduler.py:136-143 | the schedule of a satisfying assignment gives hours to exactly ten dates in each month of the range |
| Display.GetDayType | src/ra-master-scheduler.py:315-327 | the cascade, constructor by constructor. Forced exactly for forced days. Otherwise weekend, holiday, forbidden in that order, which together are exactly the days the planner pins to 0. Otherwise working exactly when hrs > 0, else free |
| Display.TableRows | src/ra-master-scheduler.py:341-362 | for the strictly increasing date list, one row per date, in order, with its weekday, its `schedule.get(d, 0.0)`, its day type and its 7-day sum over the same window as the solver's constraint |
| Display.SumOfHours | src/ra-master-scheduler.py:351 | summing `schedule.get` over dates whose values are the assignment's hours gives the assignment's `lpSum` |
| Display.SolutionSevenDaySum | src/ra-master-scheduler.py:348-352 | for the schedule of a satisfying assignment each row's 7-day sum is the sum over the next seven listed dates, and it is at most 28 |
| Display.SolutionDayType | src/ra-master-scheduler.py:315-327 | for the schedule of a satisfying assignment, a date that is not forced shows as working exactly when it is chosen, and a free date is not chosen |
| Display.RejectedTable | src/ra-master-scheduler.py:173-175 | after a rejected status every row shows no hours and a zero 7-day sum, and no date shows as working |
| Display.EmptySum | src/ra-master-scheduler.py:351 | the 7-day sum over the empty schedule is 0 |

## Left out

- The PuLP solve (:92-93, :166-172) is not modelled. The CBC solver is external. Its status string, and the values it reports, are parameters. Assignments are quantified over, and optimality of the objective is not modelled.
- The `holidays.Japan` lookup (:27-38) is not modelled. It is a foreign library, so the holiday set is a parameter. So is the range filter at :36, which compares every year's holidays against the start month of that year.
- `round(val, 2)` (:183) is left out, and so is float arithmetic. Values are exact reals, so `Solution.ExtractSchedule` stores each value unrounded.
- Constraint and variable names (`ForceZero_{d}`, `yes_no_{iso}` and the others) are left out. Each constraint record stands for its named constraint.
- The warning `print` for a forced day that may not be worked (:115) is left out, and so is the one for a rejected status (:174). Both are output only.
- The texts of the `ValueError` messages are left out. Each raising site is a distinct `ParseError` carrying the offending values.
- ShortDates.CheckValidDate: exception classes are merged. `datetime.date(y, m, d)` (:260) raises `OverflowError`, not `ValueError`, when a component does not fit a C `int`, as in the token `99999999999-1-1`. The model reports that case as `NoSuchDate`, like every other nonexistent date. So it does not show that such a token escapes the `ValueError` the docstring (:193) promises and `safe_parse_short_date_input` (:274) catches.
- `int()` is modelled for ASCII digits only: surrounding whitespace, an optional sign, and single underscores between digits. Other Unicode digits are left out, and so is changing the digit limit with `sys.set_int_max_str_digits` or `PYTHONINTMAXSTRDIGITS`. The whitespace is what `int()` skips: the characters `str.isspace()` accepts, except U+001C..U+001F, which `strip()` removes but `int()` refuses.
- `safe_parse_short_date_input` (:262-276) and `main` (:417-519) are left out. They are interactive input and output, and so is the approximate end-month computation `31*(duration-1)` in `main`.
- The ANSI colours and `get_color` (:308-338) are left out, and so is the text layout of the table. `Display.TableRows` gives the values of each row, with the weekday as its number (the name is `weekdays[d.weekday()]`).
- The calendar grid and the legend (:376-414) are left out; they are output only. `month_range`, which drives the grid, is modelled.
- The import and exit handling (:5-19) is left out.
