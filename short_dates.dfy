/** `parse_short_date_input`: a comma-separated list of full dates,
    year-month prefixes, month-day pairs and bare days, read left to right
    with a current year and month carried from token to token. Any bad token
    rejects the whole line. */
module ShortDates {
  import opened Results
  import opened Calendar
  import opened Text

  /** The errors the parser raises, one per raising site. All are
      `ValueError`s, except that `datetime.date` raises `OverflowError` for a
      component that does not fit a C `int`; NoSuchDate stands for both. */
  datatype ParseError =
    | NotAnInteger(text: string)                 // int() of a part
    | InvalidMonth(month: int)                   // _check_year_month, month test
    | InvalidYear(year: int)                     // _check_year_month, year test
    | NoSuchDate(year: int, month: int, day: int) // _check_valid_date
    | NoPrefix(token: string)                    // a bare day before any year and month
    | UnparsableToken(token: string)             // more than three parts

  /** `current_year` and `current_month`. */
  datatype Context = Context(year: Option<int>, month: Option<int>)

  /** The loop state: the context and the `result` set. */
  datatype ParseState = ParseState(ctx: Context, dates: set<Date>)

  const Initial: ParseState := ParseState(Context(None, None), {})

  /** `int(text)`, raising on text that is not an integer. */
  function ToInt(text: string): (r: Result<int, ParseError>)
    ensures r.Ok? <==> ParseInt(text).Some?
    ensures r.Ok? ==> r.value == ParseInt(text).value
    ensures r.Err? ==> r.error == NotAnInteger(text)
  {
    match ParseInt(text)
    case Some(n) => Ok(n)
    case None => Err(NotAnInteger(text))
  }

  /** `_check_year_month(y, m)`: the month is checked before the year. */
  function CheckYearMonth(y: int, m: int): (r: Result<YearMonth, ParseError>)
    ensures r.Ok? <==> 1 <= m <= 12 && MinYear <= y <= MaxYear
    ensures r.Ok? ==> r.value == YearMonth(y, m)
    ensures !(1 <= m <= 12) ==> r == Err(InvalidMonth(m))
    ensures 1 <= m <= 12 && !(MinYear <= y <= MaxYear) ==> r == Err(InvalidYear(y))
  {
    if m < 1 || m > 12 then Err(InvalidMonth(m))
    else if y < 1 || y > 9999 then Err(InvalidYear(y))
    else Ok(YearMonth(y, m))
  }

  /** `_check_valid_date(y, m, d)` followed by `datetime.date(y, m, d)`. */
  function CheckValidDate(y: int, m: int, d: int): (r: Result<Date, ParseError>)
    ensures r.Ok? <==> IsDate(Ymd(y, m, d))
    ensures r.Ok? ==> r.value == Ymd(y, m, d)
    ensures r.Err? ==> r.error == NoSuchDate(y, m, d)
  {
    match MakeDate(y, m, d)
    case Ok(date) => Ok(date)
    case Err(_) => Err(NoSuchDate(y, m, d))
  }

  /** A three-part token `YYYY-mm-dd`: sets both year and month. */
  function FullDate(st: ParseState, y: string, m: string, d: string): Result<ParseState, ParseError> {
    var yi :- ToInt(y);
    var mi :- ToInt(m);
    var di :- ToInt(d);
    var date :- CheckValidDate(yi, mi, di);
    Ok(ParseState(Context(Some(yi), Some(mi)), st.dates + {date}))
  }

  /** A two-part token: a year-month when p1 > 12 or no year is known (two
      branches of the source with the same body), otherwise month-day in the
      current year, which makes p1 the current month. */
  function Pair(st: ParseState, p1: string, p2: string): Result<ParseState, ParseError> {
    var a :- ToInt(p1);
    var b :- ToInt(p2);
    if a > 12 || st.ctx.year.None? then
      var ym :- CheckYearMonth(a, b);
      Ok(ParseState(Context(Some(ym.year), Some(ym.month)), st.dates))
    else
      var date :- CheckValidDate(st.ctx.year.value, a, b);
      Ok(ParseState(Context(st.ctx.year, Some(a)), st.dates + {date}))
  }

  /** A one-part token: a day in the current year and month. */
  function Day(st: ParseState, tok: string, d: string): Result<ParseState, ParseError> {
    var di :- ToInt(d);
    if st.ctx.year.Some? && st.ctx.month.Some? then
      var date :- CheckValidDate(st.ctx.year.value, st.ctx.month.value, di);
      Ok(ParseState(st.ctx, st.dates + {date}))
    else
      Err(NoPrefix(tok))
  }

  /** One turn of the token loop, by the number of `-`-separated parts. */
  function Step(st: ParseState, tok: string): Result<ParseState, ParseError> {
    var parts := Split(tok, '-');
    if |parts| == 3 then FullDate(st, parts[0], parts[1], parts[2])
    else if |parts| == 2 then Pair(st, parts[0], parts[1])
    else if |parts| == 1 then Day(st, tok, parts[0])
    else Err(UnparsableToken(tok))
  }

  /** The token loop from state st over toks; the first error ends it. */
  function ParseFrom(st: ParseState, toks: seq<string>): Result<ParseState, ParseError>
    decreases |toks|
  {
    if toks == [] then Ok(st)
    else
      var next :- Step(st, toks[0]);
      ParseFrom(next, toks[1..])
  }

  /** The list comprehension: every piece stripped, empty ones dropped. */
  function Tokens(pieces: seq<string>): seq<string> {
    if pieces == [] then [] else Kept(pieces[0]) + Tokens(pieces[1..])
  }

  /** What one piece contributes: itself stripped, unless that is empty. */
  function Kept(piece: string): seq<string> {
    var t := Strip(piece);
    if t != [] then [t] else []
  }

  /** `parse_short_date_input(line)`. */
  function ParseLine(line: string): Result<set<Date>, ParseError> {
    var st :- ParseFrom(Initial, Tokens(Split(line, ',')));
    Ok(st.dates)
  }

  /** The `for` loop of `parse_short_date_input`, mutating `current_year`,
      `current_month` and `result`. */
  method ParseShortDateInput(line: string) returns (r: Result<set<Date>, ParseError>)
    ensures r == ParseLine(line)
  {
    var tokens := Tokens(Split(line, ','));
    var currentYear: Option<int> := None;
    var currentMonth: Option<int> := None;
    var result: set<Date> := {};
    for i := 0 to |tokens|
      invariant ParseFrom(Initial, tokens) == ParseFrom(ParseState(Context(currentYear, currentMonth), result), tokens[i..])
    {
      var tok := tokens[i];
      ghost var before := ParseState(Context(currentYear, currentMonth), result);
      ghost var expected := Step(before, tok);
      assert ParseFrom(before, tokens[i..]) == (if expected.Err? then Err(expected.error) else ParseFrom(expected.value, tokens[i + 1..])) by {
        assert tokens[i..][0] == tok && tokens[i..][1..] == tokens[i + 1..];
      }
      var parts := Split(tok, '-');
      if |parts| == 3 {
        var y :- ToInt(parts[0]);
        var m :- ToInt(parts[1]);
        var d :- ToInt(parts[2]);
        var date :- CheckValidDate(y, m, d);
        currentYear := Some(y);
        currentMonth := Some(m);
        result := result + {date};
      } else if |parts| == 2 {
        var p1 :- ToInt(parts[0]);
        var p2 :- ToInt(parts[1]);
        if p1 > 12 {
          var ym :- CheckYearMonth(p1, p2);
          currentYear := Some(p1);
          currentMonth := Some(p2);
        } else if currentYear.None? {
          var ym :- CheckYearMonth(p1, p2);
          currentYear := Some(p1);
          currentMonth := Some(p2);
        } else {
          var date :- CheckValidDate(currentYear.value, p1, p2);
          currentMonth := Some(p1);
          result := result + {date};
        }
      } else if |parts| == 1 {
        var d :- ToInt(parts[0]);
        if currentYear.Some? && currentMonth.Some? {
          var date :- CheckValidDate(currentYear.value, currentMonth.value, d);
          result := result + {date};
        } else {
          return Err(NoPrefix(tok));
        }
      } else {
        return Err(UnparsableToken(tok));
      }
    }
    r := Ok(result);
  }

  // ---------------------------------------------------------------------
  // Properties of the token loop

  /** The loop over a + b is the loop over a, then over b from where a stopped. */
  lemma {:induction false} ParseFromAppend(st: ParseState, a: seq<string>, b: seq<string>)
    ensures ParseFrom(st, a + b) ==
      (match ParseFrom(st, a)
       case Ok(mid) => ParseFrom(mid, b)
       case Err(e) => Err(e))
    decreases |a|
  {
    if a != [] {
      assert (a + b)[0] == a[0] && (a + b)[1..] == a[1..] + b;
      var next := Step(st, a[0]);
      if next.Ok? {
        ParseFromAppend(next.value, a[1..], b);
      }
    } else {
      assert a + b == b;
    }
  }

  /** What the context can hold: year and month are set together, and only
      to values the validators accepted. */
  predicate ValidContext(c: Context) {
    && (c.year.Some? <==> c.month.Some?)
    && (c.year.Some? ==> MinYear <= c.year.value <= MaxYear)
    && (c.month.Some? ==> 1 <= c.month.value <= 12)
  }

  /** Every token that is accepted has an Effect. */
  lemma StepEffect(st: ParseState, tok: string)
    requires ValidContext(st.ctx)
    ensures Step(st, tok).Ok? ==> Effect(st, Step(st, tok).value)
  {
    var parts := Split(tok, '-');
    if |parts| == 3 {
      FullDateEffect(st, parts[0], parts[1], parts[2]);
    } else if |parts| == 2 {
      PairEffect(st, parts[0], parts[1]);
    } else if |parts| == 1 {
      DayEffect(st, tok, parts[0]);
    }
  }

  lemma FullDateEffect(st: ParseState, y: string, m: string, d: string)
    ensures FullDate(st, y, m, d).Ok? ==> Effect(st, FullDate(st, y, m, d).value)
  {
    var r := FullDate(st, y, m, d);
    if r.Ok? {
      var x := Ymd(ParseInt(y).value, ParseInt(m).value, ParseInt(d).value);
      assert r.value == ParseState(Context(Some(x.year), Some(x.month)), st.dates + {x});
      AddedOne(st.dates, x);
    }
  }

  lemma PairEffect(st: ParseState, p1: string, p2: string)
    requires ValidContext(st.ctx)
    ensures Pair(st, p1, p2).Ok? ==> Effect(st, Pair(st, p1, p2).value)
  {
    var r := Pair(st, p1, p2);
    if r.Ok? {
      var a, b := ParseInt(p1).value, ParseInt(p2).value;
      if a > 12 || st.ctx.year.None? {
        assert r.value == ParseState(Context(Some(a), Some(b)), st.dates);
      } else {
        var x := Ymd(st.ctx.year.value, a, b);
        assert r.value == ParseState(Context(st.ctx.year, Some(a)), st.dates + {x});
        AddedOne(st.dates, x);
      }
    }
  }

  lemma DayEffect(st: ParseState, tok: string, d: string)
    requires ValidContext(st.ctx)
    ensures Day(st, tok, d).Ok? ==> Effect(st, Day(st, tok, d).value)
  {
    var r := Day(st, tok, d);
    if r.Ok? {
      var x := Ymd(st.ctx.year.value, st.ctx.month.value, ParseInt(d).value);
      assert r.value == ParseState(st.ctx, st.dates + {x});
      AddedOne(st.dates, x);
    }
  }

  /** What one token may do to the state: keep the context valid, keep every
      date, and add at most one, lying in the new current year and month. */
  predicate Effect(st: ParseState, n: ParseState) {
    && ValidContext(n.ctx)
    && st.dates <= n.dates
    && |n.dates - st.dates| <= 1
    && (forall x | x in n.dates - st.dates :: Some(x.year) == n.ctx.year && Some(x.month) == n.ctx.month)
  }

  lemma AddedOne<T>(s: set<T>, x: T)
    ensures (s + {x}) - s <= {x} && |(s + {x}) - s| <= 1
  {
    if x in s {
      assert (s + {x}) - s == {};
    } else {
      assert (s + {x}) - s == {x};
    }
  }

  /** Over a whole run of tokens the context stays valid and dates are only added. */
  lemma {:induction false} ParseFromGrows(st: ParseState, toks: seq<string>)
    requires ValidContext(st.ctx)
    ensures ParseFrom(st, toks).Ok? ==>
      ValidContext(ParseFrom(st, toks).value.ctx) && st.dates <= ParseFrom(st, toks).value.dates
      && |ParseFrom(st, toks).value.dates - st.dates| <= |toks|
    decreases |toks|
  {
    if toks != [] {
      StepEffect(st, toks[0]);
      var next := Step(st, toks[0]);
      if next.Ok? {
        ParseFromGrows(next.value, toks[1..]);
        var fin := ParseFrom(next.value, toks[1..]);
        if fin.Ok? {
          var d0, d1, d2 := st.dates, next.value.dates, fin.value.dates;
          assert d2 - d0 == (d2 - d1) + (d1 - d0);
          assert |(d2 - d1) + (d1 - d0)| <= |d2 - d1| + |d1 - d0| by {
            SetUnionSize(d2 - d1, d1 - d0);
          }
        }
      }
    }
  }

  lemma SetUnionSize<T>(a: set<T>, b: set<T>)
    ensures |a + b| <= |a| + |b|
  {
    assert |a + b| == |a| + |b| - |a * b|;
  }

  // ---------------------------------------------------------------------
  // Tokens written out from numbers

  /** The text `str(y)-str(m)-str(d)`. */
  function FullToken(y: nat, m: nat, d: nat): string {
    NatToString(y) + "-" + NatToString(m) + "-" + NatToString(d)
  }

  /** The text `str(a)-str(b)`. */
  function PairToken(a: nat, b: nat): string {
    NatToString(a) + "-" + NatToString(b)
  }

  /** The text `str(d)`. */
  function DayToken(d: nat): string {
    NatToString(d)
  }

  lemma ReadNat(n: nat)
    requires FitsStrDigits(n)
    ensures ToInt(NatToString(n)) == Ok(n)
  {
    assert IntToString(n) == NatToString(n);
    ParseIntToString(n);
  }

  lemma FullTokenParts(y: nat, m: nat, d: nat)
    ensures Split(FullToken(y, m, d), '-') == [NatToString(y), NatToString(m), NatToString(d)]
  {
    SplitThree(NatToString(y), NatToString(m), NatToString(d), '-');
  }

  lemma PairTokenParts(a: nat, b: nat)
    ensures Split(PairToken(a, b), '-') == [NatToString(a), NatToString(b)]
  {
    SplitTwo(NatToString(a), NatToString(b), '-');
  }

  /** A three-part token whose parts read as the integers y, m and d, however
      they are spelled (leading zeros, a sign, underscores, whitespace that
      `int()` skips), adds that date and makes (y, m) the current year and
      month, in every context; a nonexistent date rejects it. */
  lemma FullDateStep(st: ParseState, tok: string, y: int, m: int, d: int)
    requires var parts := Split(tok, '-');
      |parts| == 3 && ParseInt(parts[0]) == Some(y) && ParseInt(parts[1]) == Some(m) && ParseInt(parts[2]) == Some(d)
    ensures IsDate(Ymd(y, m, d)) ==>
      Step(st, tok) == Ok(ParseState(Context(Some(y), Some(m)), st.dates + {Ymd(y, m, d)}))
    ensures !IsDate(Ymd(y, m, d)) ==> Step(st, tok) == Err(NoSuchDate(y, m, d))
  {
  }

  /** A two-part token whose parts read as a and b is a year-month when
      a > 12 or no year is known yet: it sets the context and adds nothing.
      Otherwise it is month a, day b of the current year: it adds that date
      and makes a the current month. */
  lemma PairStep(st: ParseState, tok: string, a: int, b: int)
    requires var parts := Split(tok, '-');
      |parts| == 2 && ParseInt(parts[0]) == Some(a) && ParseInt(parts[1]) == Some(b)
    ensures (a > 12 || st.ctx.year.None?) && 1 <= b <= 12 && MinYear <= a <= MaxYear ==>
      Step(st, tok) == Ok(ParseState(Context(Some(a), Some(b)), st.dates))
    ensures (a > 12 || st.ctx.year.None?) && !(1 <= b <= 12) ==> Step(st, tok) == Err(InvalidMonth(b))
    ensures (a > 12 || st.ctx.year.None?) && 1 <= b <= 12 && !(MinYear <= a <= MaxYear) ==>
      Step(st, tok) == Err(InvalidYear(a))
    ensures a <= 12 && st.ctx.year.Some? ==>
      var x := Ymd(st.ctx.year.value, a, b);
      Step(st, tok) ==
        if IsDate(x) then Ok(ParseState(Context(st.ctx.year, Some(a)), st.dates + {x}))
        else Err(NoSuchDate(x.year, a, b))
  {
    var parts := Split(tok, '-');
    assert Step(st, tok) == Pair(st, parts[0], parts[1]);
    PairValues(st, parts[0], parts[1], a, b);
  }

  /** Pair on parts that read as a and b. */
  lemma PairValues(st: ParseState, p1: string, p2: string, a: int, b: int)
    requires ToInt(p1) == Ok(a) && ToInt(p2) == Ok(b)
    ensures (a > 12 || st.ctx.year.None?) && 1 <= b <= 12 && MinYear <= a <= MaxYear ==>
      Pair(st, p1, p2) == Ok(ParseState(Context(Some(a), Some(b)), st.dates))
    ensures (a > 12 || st.ctx.year.None?) && !(1 <= b <= 12) ==> Pair(st, p1, p2) == Err(InvalidMonth(b))
    ensures (a > 12 || st.ctx.year.None?) && 1 <= b <= 12 && !(MinYear <= a <= MaxYear) ==>
      Pair(st, p1, p2) == Err(InvalidYear(a))
    ensures a <= 12 && st.ctx.year.Some? ==>
      var x := Ymd(st.ctx.year.value, a, b);
      Pair(st, p1, p2) ==
        if IsDate(x) then Ok(ParseState(Context(st.ctx.year, Some(a)), st.dates + {x}))
        else Err(NoSuchDate(x.year, a, b))
  {
  }

  /** A token without a dash that reads as d is a day of the current year and
      month and changes neither; with no year and month known it rejects the
      line. */
  lemma DayStep(st: ParseState, tok: string, d: int)
    requires '-' !in tok && ParseInt(tok) == Some(d)
    ensures st.ctx.year.Some? && st.ctx.month.Some? ==>
      var x := Ymd(st.ctx.year.value, st.ctx.month.value, d);
      Step(st, tok) ==
        if IsDate(x) then Ok(ParseState(st.ctx, st.dates + {x}))
        else Err(NoSuchDate(x.year, x.month, d))
    ensures !(st.ctx.year.Some? && st.ctx.month.Some?) ==> Step(st, tok) == Err(NoPrefix(tok))
  {
    assert Split(tok, '-') == [tok];
  }

  /** `y-m-d` written with `str()` numerals: the instance of FullDateStep the example uses. */
  lemma FullTokenStep(st: ParseState, y: nat, m: nat, d: nat)
    requires FitsStrDigits(y) && FitsStrDigits(m) && FitsStrDigits(d)
    ensures IsDate(Ymd(y, m, d)) ==>
      Step(st, FullToken(y, m, d)) == Ok(ParseState(Context(Some(y), Some(m)), st.dates + {Ymd(y, m, d)}))
    ensures !IsDate(Ymd(y, m, d)) ==> Step(st, FullToken(y, m, d)) == Err(NoSuchDate(y, m, d))
  {
    FullTokenParts(y, m, d);
    ReadNat(y);
    ReadNat(m);
    ReadNat(d);
    FullDateStep(st, FullToken(y, m, d), y, m, d);
  }

  /** `a-b` written with `str()` numerals: the instance of PairStep the example uses. */
  lemma PairTokenStep(st: ParseState, a: nat, b: nat)
    requires FitsStrDigits(a) && FitsStrDigits(b)
    ensures (a > 12 || st.ctx.year.None?) && 1 <= b <= 12 && MinYear <= a <= MaxYear ==>
      Step(st, PairToken(a, b)) == Ok(ParseState(Context(Some(a), Some(b)), st.dates))
    ensures (a > 12 || st.ctx.year.None?) && !(1 <= b <= 12) ==>
      Step(st, PairToken(a, b)) == Err(InvalidMonth(b))
    ensures (a > 12 || st.ctx.year.None?) && 1 <= b <= 12 && !(MinYear <= a <= MaxYear) ==>
      Step(st, PairToken(a, b)) == Err(InvalidYear(a))
    ensures a <= 12 && st.ctx.year.Some? ==>
      var x := Ymd(st.ctx.year.value, a, b);
      Step(st, PairToken(a, b)) ==
        if IsDate(x) then Ok(ParseState(Context(st.ctx.year, Some(a)), st.dates + {x}))
        else Err(NoSuchDate(x.year, a, b))
  {
    PairTokenParts(a, b);
    ReadNat(a);
    ReadNat(b);
    PairStep(st, PairToken(a, b), a, b);
  }

  /** A bare `str()` day: the instance of DayStep the example uses. */
  lemma DayTokenStep(st: ParseState, d: nat)
    requires FitsStrDigits(d)
    ensures st.ctx.year.Some? && st.ctx.month.Some? ==>
      var x := Ymd(st.ctx.year.value, st.ctx.month.value, d);
      Step(st, DayToken(d)) ==
        if IsDate(x) then Ok(ParseState(st.ctx, st.dates + {x}))
        else Err(NoSuchDate(x.year, x.month, d))
    ensures !(st.ctx.year.Some? && st.ctx.month.Some?) ==>
      Step(st, DayToken(d)) == Err(NoPrefix(DayToken(d)))
  {
    ReadNat(d);
    DayStep(st, DayToken(d), d);
  }

  /** The text `str(y)-0str(m)-0str(d)`. */
  function PaddedToken(y: nat, m: nat, d: nat): string {
    NatToString(y) + "-" + ("0" + NatToString(m)) + "-" + ("0" + NatToString(d))
  }

  /** Zero-padded month and day read as the same date as without the zeros,
      as long as the padding keeps them within the digit limit. */
  lemma PaddedTokenStep(st: ParseState, y: nat, m: nat, d: nat)
    requires FitsStrDigits(y) && |NatToString(m)| < MaxStrDigits && |NatToString(d)| < MaxStrDigits
    ensures IsDate(Ymd(y, m, d)) ==>
      Step(st, PaddedToken(y, m, d)) == Ok(ParseState(Context(Some(y), Some(m)), st.dates + {Ymd(y, m, d)}))
    ensures !IsDate(Ymd(y, m, d)) ==> Step(st, PaddedToken(y, m, d)) == Err(NoSuchDate(y, m, d))
  {
    var sy, sm, sd := NatToString(y), "0" + NatToString(m), "0" + NatToString(d);
    assert '-' !in sm && '-' !in sd by {
      assert sm[1..] == NatToString(m) && sd[1..] == NatToString(d);
      assert forall c | c in sm :: c == '0' || c in NatToString(m);
      assert forall c | c in sd :: c == '0' || c in NatToString(d);
    }
    SplitThree(sy, sm, sd, '-');
    ReadNat(y);
    PaddedRead(m);
    PaddedRead(d);
    FullDateStep(st, PaddedToken(y, m, d), y, m, d);
  }

  /** `int("0" + str(n)) == n` below the digit limit. */
  lemma PaddedRead(n: nat)
    requires |NatToString(n)| < MaxStrDigits
    ensures ParseInt("0" + NatToString(n)) == Some(n)
  {
    NatToStringValue(n);
    LeadingZero(NatToString(n));
    ParseNumeral(NatToString(n), n);
  }

  /** The zero-padded spelling `2025-02-01` reads as 1 February 2025. */
  lemma PaddedFullDate(st: ParseState)
    ensures Step(st, "2025-02-01") == Ok(ParseState(Context(Some(2025), Some(2)), st.dates + {Ymd(2025, 2, 1)}))
  {
    PaddedText();
    SmallFits(2025);
    NatToStringLength(2, 1);
    NatToStringLength(1, 1);
    PaddedTokenStep(st, 2025, 2, 1);
  }

  /** A run of k zeros. */
  function Zeros(k: nat): (z: string)
    ensures |z| == k && forall c | c in z :: c == '0'
  {
    seq(k, i => '0')
  }

  /** `2025-2-` followed by the day 1 written with at least MaxStrDigits
      leading zeros is rejected at the day's `int()`: the zeros count toward
      the digit limit. */
  lemma PaddedDayOverLimit(st: ParseState, k: nat)
    requires k >= MaxStrDigits
    ensures Step(st, "2025-2-" + Zeros(k) + "1") == Err(NotAnInteger(Zeros(k) + "1"))
  {
    var day := Zeros(k) + "1";
    LongDayRefused(k);
    assert '-' !in day by {
      assert forall c | c in day :: c == '0' || c == '1';
    }
    PrefixedDayRefused(st, day);
    assert "2025-2-" + Zeros(k) + "1" == "2025-2-" + day;
  }

  /** `2025-2-` followed by a day part that `int()` refuses is rejected with that part. */
  lemma PrefixedDayRefused(st: ParseState, day: string)
    requires '-' !in day && ParseInt(day).None?
    ensures Step(st, "2025-2-" + day) == Err(NotAnInteger(day))
  {
    PrefixParts(day);
    PrefixNumbers();
    ThirdPartRefused(st, "2025-2-" + day);
  }

  lemma PrefixParts(day: string)
    requires '-' !in day
    ensures Split("2025-2-" + day, '-') == ["2025", "2", day]
  {
    assert "2025-2-" + day == "2025" + "-" + "2" + "-" + day;
    SplitThree("2025", "2", day, '-');
  }

  lemma PrefixNumbers()
    ensures ParseInt("2025") == Some(2025) && ParseInt("2") == Some(2)
  {
    ExampleNumerals();
    SmallFits(2025);
    SmallFits(2);
    ReadNat(2025);
    ReadNat(2);
  }

  /** The day 1 after k >= MaxStrDigits zeros is too long for `int()`. */
  lemma LongDayRefused(k: nat)
    requires k >= MaxStrDigits
    ensures ParseInt(Zeros(k) + "1") == None
  {
    var day := Zeros(k) + "1";
    assert forall c | c in day :: c == '0' || c == '1';
    assert IsNumeral(day) by {
      assert day[0] == '0' && day[|day| - 1] == '1';
    }
    NoUnderscores(day);
    TooManyDigits(day);
  }

  /** A three-part token whose first two parts are integers and whose third is
      not is rejected with the third. */
  lemma ThirdPartRefused(st: ParseState, tok: string)
    requires var parts := Split(tok, '-');
      |parts| == 3 && ParseInt(parts[0]).Some? && ParseInt(parts[1]).Some? && ParseInt(parts[2]).None?
    ensures Step(st, tok) == Err(NotAnInteger(Split(tok, '-')[2]))
  {
  }

  lemma PaddedText()
    ensures PaddedToken(2025, 2, 1) == "2025-02-01"
  {
    ExampleNumerals();
    assert "2025" + "-" + ("0" + "2") + "-" + ("0" + "1") == "2025-02-01";
  }

  // ---------------------------------------------------------------------
  // Whole-line rejection

  /** A token that no context can rescue: more than three parts, a part that
      is not an integer, or three integers that are not a date. */
  predicate Malformed(tok: string) {
    var parts := Split(tok, '-');
    || |parts| > 3
    || (exists i | 0 <= i < |parts| :: ParseInt(parts[i]).None?)
    || (|parts| == 3 && ParseInt(parts[0]).Some? && ParseInt(parts[1]).Some? && ParseInt(parts[2]).Some?
        && !IsDate(Ymd(ParseInt(parts[0]).value, ParseInt(parts[1]).value, ParseInt(parts[2]).value)))
  }

  lemma MalformedFails(st: ParseState, tok: string)
    requires Malformed(tok)
    ensures Step(st, tok).Err?
  {
    var parts := Split(tok, '-');
    if |parts| == 3 {
      FullDateRejects(st, parts[0], parts[1], parts[2]);
    } else if |parts| == 2 {
      var i :| 0 <= i < 2 && ParseInt(parts[i]).None?;
      assert ParseInt(parts[0]).None? || ParseInt(parts[1]).None?;
    }
  }

  lemma FullDateRejects(st: ParseState, y: string, m: string, d: string)
    requires
      || ParseInt(y).None? || ParseInt(m).None? || ParseInt(d).None?
      || !IsDate(Ymd(ParseInt(y).value, ParseInt(m).value, ParseInt(d).value))
    ensures FullDate(st, y, m, d).Err?
  {
  }

  /** One malformed token anywhere makes the whole run fail, from any state:
      nothing read before it survives. */
  lemma MalformedRejectsRun(st: ParseState, toks: seq<string>, i: nat)
    requires i < |toks| && Malformed(toks[i])
    ensures ParseFrom(st, toks).Err?
  {
    var before, after := toks[..i], toks[i..];
    assert toks == before + after;
    ParseFromAppend(st, before, after);
    var prefix := ParseFrom(st, before);
    if prefix.Ok? {
      MalformedFails(prefix.value, toks[i]);
      assert after[0] == toks[i];
    }
  }

  lemma {:induction false} TokensAppend(a: seq<string>, b: seq<string>)
    ensures Tokens(a + b) == Tokens(a) + Tokens(b)
    decreases |a|
  {
    if a != [] {
      assert (a + b)[0] == a[0] && (a + b)[1..] == a[1..] + b;
      TokensAppend(a[1..], b);
      var h := Kept(a[0]);
      assert Tokens(a + b) == h + (Tokens(a[1..]) + Tokens(b));
      assert Tokens(a) == h + Tokens(a[1..]);
    } else {
      assert a + b == b;
    }
  }

  /** A line written as its comma-separated pieces is read as their tokens. */
  lemma LineTokens(pieces: seq<string>)
    requires Separated(pieces, ',')
    ensures Tokens(Split(Join(pieces, ','), ',')) == Tokens(pieces)
  {
    if pieces == [] {
      assert Split("", ',') == [""];
      assert Strip("") == "";
    } else {
      SplitJoin(pieces, ',');
    }
  }

  /** The tokens around one piece. */
  lemma TokensSplice(a: seq<string>, x: string, b: seq<string>)
    ensures Tokens(a + [x] + b) == Tokens(a) + Kept(x) + Tokens(b)
  {
    var ta, tb, k := Tokens(a), Tokens(b), Kept(x);
    assert Tokens([x]) == k by {
      assert [x][1..] == [];
      assert k + [] == k;
    }
    assert Tokens(a + [x]) == ta + k by {
      TokensAppend(a, [x]);
    }
    assert Tokens(a + [x] + b) == ta + k + tb by {
      TokensAppend(a + [x], b);
    }
  }

  lemma SplitAt<T>(s: seq<T>, i: nat)
    requires i < |s|
    ensures s == s[..i] + [s[i]] + s[i + 1..]
  {
  }

  /** A malformed piece rejects the line, whatever surrounds it. */
  lemma MalformedRejectsLine(pieces: seq<string>, i: nat)
    requires Separated(pieces, ',')
    requires i < |pieces| && Strip(pieces[i]) != [] && Malformed(Strip(pieces[i]))
    ensures ParseLine(Join(pieces, ',')).Err?
  {
    var toks := Tokens(pieces);
    var k := |Tokens(pieces[..i])|;
    assert k < |toks| && toks[k] == Strip(pieces[i]) by {
      SplitAt(pieces, i);
      TokensSplice(pieces[..i], pieces[i], pieces[i + 1..]);
    }
    assert ParseFrom(Initial, toks).Err? by {
      MalformedRejectsRun(Initial, toks, k);
    }
    LineTokens(pieces);
  }

  /** A piece that is blank after stripping is skipped. */
  lemma BlankPieceIgnored(before: seq<string>, piece: string, after: seq<string>)
    requires Separated(before, ',') && Separated(after, ',')
    requires ',' !in piece && Strip(piece) == []
    ensures ParseLine(Join(before + [piece] + after, ',')) == ParseLine(Join(before + after, ','))
  {
    var with, without := before + [piece] + after, before + after;
    assert Tokens(with) == Tokens(without) by {
      TokensSplice(before, piece, after);
      TokensAppend(before, after);
      assert Kept(piece) == [];
      assert Tokens(before) + [] == Tokens(before);
    }
    assert Tokens(Split(Join(with, ','), ',')) == Tokens(with) by {
      SeparatedAppend(before, [piece], ',');
      SeparatedAppend(before + [piece], after, ',');
      LineTokens(with);
    }
    assert Tokens(Split(Join(without, ','), ',')) == Tokens(without) by {
      SeparatedAppend(before, after, ',');
      LineTokens(without);
    }
  }

  /** An empty line gives no dates. */
  lemma EmptyLine()
    ensures ParseLine("") == Ok({})
  {
    assert Split("", ',') == [""];
    assert Strip("") == "";
  }

  /** A line whose first piece is a bare day, however spelled, is rejected:
      there is no year and month to read it in. */
  lemma BareDayFirst(piece: string, rest: string, d: int)
    requires ',' !in piece && '-' !in Strip(piece) && ParseInt(Strip(piece)) == Some(d)
    ensures ParseLine(piece + "," + rest) == Err(NoPrefix(Strip(piece)))
  {
    var t := Strip(piece);
    assert t != [] by {
      assert IntStrip([]) == [];
    }
    SplitAppend(piece, rest, ',');
    assert Split(piece, ',') == [piece];
    TokensAppend([piece], Split(rest, ','));
    assert Tokens([piece]) == [t] by {
      assert [piece][1..] == [];
    }
    DayStep(Initial, t, d);
    var toks := Tokens(Split(piece + "," + rest, ','));
    assert toks[0] == t;
  }

  /** A one-token line of two or three parts whose first part is not an
      integer is rejected with that part. */
  lemma FirstPartRejected(tok: string)
    requires Clean(tok)
    requires var parts := Split(tok, '-'); 2 <= |parts| <= 3 && ParseInt(parts[0]).None?
    ensures ParseLine(tok) == Err(NotAnInteger(Split(tok, '-')[0]))
  {
    assert Split(tok, ',') == [tok];
    CleanStripped(tok);
    assert Tokens([tok]) == [tok] by {
      assert [tok][1..] == [];
    }
  }

  /** `2025\U{1C}-2-1` is rejected: `str.strip()` leaves the separator inside
      the token, and `int()` does not skip it. */
  lemma SeparatorInYearRejected()
    ensures ParseLine("2025\U{1C}-2-1") == Err(NotAnInteger("2025\U{1C}"))
  {
    SeparatorNotStripped();
    SeparatorParts();
    SeparatorClean();
    FirstPartRejected("2025\U{1C}-2-1");
  }

  lemma SeparatorParts()
    ensures Split("2025\U{1C}-2-1", '-') == ["2025\U{1C}", "2", "1"]
  {
    var y := "2025\U{1C}";
    assert '-' !in y;
    assert y + "-" + "2" + "-" + "1" == "2025\U{1C}-2-1";
    SplitThree(y, "2", "1", '-');
  }

  lemma SeparatorClean()
    ensures Clean("2025\U{1C}-2-1")
  {
    var t := "2025\U{1C}-2-1";
    assert t[0] == '2' && t[|t| - 1] == '1';
    assert forall i | 0 <= i < |t| :: t[i] != ',';
  }

  // ---------------------------------------------------------------------
  // The example of the docstring

  /** `'2025-2-1,2,5,3-25,20,2026-1-15'` reads as exactly six dates: a full
      date, two days of its month, a month-day that moves to March, a day of
      March, and a full date in the next year. */
  lemma DocstringExample()
    ensures ParseLine("2025-2-1,2,5,3-25,20,2026-1-15") ==
      Ok({Ymd(2025, 2, 1), Ymd(2025, 2, 2), Ymd(2025, 2, 5), Ymd(2025, 3, 25), Ymd(2025, 3, 20), Ymd(2026, 1, 15)})
  {
    var pieces := ["2025-2-1", "2", "5", "3-25", "20", "2026-1-15"];
    var toks := [FullToken(2025, 2, 1), DayToken(2), DayToken(5), PairToken(3, 25), DayToken(20), FullToken(2026, 1, 15)];
    ExampleJoin();
    ExampleTokens();
    assert toks == pieces;
    ExampleLine("2025-2-1,2,5,3-25,20,2026-1-15", 2025, 2, 1, 2, 5, 3, 25, 20, 2026, 1, 15);
  }

  /** A line that spells out the shape of the example reads as its six dates. */
  lemma ExampleLine(line: string, y: nat, m: nat, d1: nat, d2: nat, d3: nat, m2: nat, d4: nat, d5: nat, y6: nat, m6: nat, d6: nat)
    requires IsDate(Ymd(y, m, d1)) && IsDate(Ymd(y, m, d2)) && IsDate(Ymd(y, m, d3))
    requires m2 <= 12 && IsDate(Ymd(y, m2, d4)) && IsDate(Ymd(y, m2, d5)) && IsDate(Ymd(y6, m6, d6))
    requires Join([FullToken(y, m, d1), DayToken(d2), DayToken(d3), PairToken(m2, d4), DayToken(d5), FullToken(y6, m6, d6)], ',') == line
    ensures ParseLine(line) ==
      Ok({Ymd(y, m, d1), Ymd(y, m, d2), Ymd(y, m, d3), Ymd(y, m2, d4), Ymd(y, m2, d5), Ymd(y6, m6, d6)})
  {
    var toks := [FullToken(y, m, d1), DayToken(d2), DayToken(d3), PairToken(m2, d4), DayToken(d5), FullToken(y6, m6, d6)];
    var dates := {Ymd(y, m, d1), Ymd(y, m, d2), Ymd(y, m, d3), Ymd(y, m2, d4), Ymd(y, m2, d5), Ymd(y6, m6, d6)};
    FullTokenClean(y, m, d1);
    DayTokenClean(d2);
    DayTokenClean(d3);
    PairTokenClean(m2, d4);
    DayTokenClean(d5);
    FullTokenClean(y6, m6, d6);
    CleanTokens(toks);
    ExampleShape(Initial, y, m, d1, d2, d3, m2, d4, d5, y6, m6, d6);
    assert Initial.dates + dates == dates;
    LineOfTokens(line, toks, ParseState(Context(Some(y6), Some(m6)), dates));
  }

  /** A line that is its tokens joined by commas is read by the token loop over them. */
  lemma LineOfTokens(line: string, toks: seq<string>, fin: ParseState)
    requires Join(toks, ',') == line && Separated(toks, ',') && Tokens(toks) == toks
    requires ParseFrom(Initial, toks) == Ok(fin)
    ensures ParseLine(line) == Ok(fin.dates)
  {
    LineTokens(toks);
  }

  /** A token that has no comma and begins and ends with a digit. */
  predicate Clean(t: string) {
    t != [] && ',' !in t && IsDigit(t[0]) && IsDigit(t[|t| - 1])
  }

  lemma FullTokenClean(y: nat, m: nat, d: nat)
    ensures Clean(FullToken(y, m, d))
  {
    var sy, sm, sd := NatToString(y), NatToString(m), NatToString(d);
    var t := sy + "-" + sm + "-" + sd;
    assert t[0] == sy[0] && t[|t| - 1] == sd[|sd| - 1];
    assert ',' !in t by {
      assert forall c | c in t :: c in sy || c == '-' || c in sm || c in sd;
    }
  }

  lemma PairTokenClean(a: nat, b: nat)
    ensures Clean(PairToken(a, b))
  {
    var sa, sb := NatToString(a), NatToString(b);
    var t := sa + "-" + sb;
    assert t[0] == sa[0] && t[|t| - 1] == sb[|sb| - 1];
    assert ',' !in t by {
      assert forall c | c in t :: c in sa || c == '-' || c in sb;
    }
  }

  /** Clean tokens are separated by commas and are their own tokens. */
  lemma CleanTokens(toks: seq<string>)
    requires forall i | 0 <= i < |toks| :: Clean(toks[i])
    ensures Separated(toks, ',') && Tokens(toks) == toks
  {
    forall i | 0 <= i < |toks| ensures toks[i] != [] && Strip(toks[i]) == toks[i] {
      CleanStripped(toks[i]);
    }
    TokensOfStripped(toks);
  }

  lemma CleanStripped(t: string)
    requires Clean(t)
    ensures Strip(t) == t
  {
    assert !IsSpace(t[0]) && !IsSpace(t[|t| - 1]);
    StripUnchanged(t);
  }

  lemma DayTokenClean(d: nat)
    ensures Clean(DayToken(d))
  {
  }

  /** The shape of the example, from any state and for any year, months and
      days that make dates: a full date, two days of its month, a month-day
      read in the same year, a day of that month, and another full date. */
  /** Year, month and day of a date are all within the digit limit. */
  lemma DateFits(x: Ymd)
    requires IsDate(x)
    ensures FitsStrDigits(x.year) && FitsStrDigits(x.month) && FitsStrDigits(x.day)
  {
    SmallFits(x.year);
    SmallFits(x.month);
    SmallFits(x.day);
  }

  lemma ExampleShape(st: ParseState, y: nat, m: nat, d1: nat, d2: nat, d3: nat, m2: nat, d4: nat, d5: nat, y6: nat, m6: nat, d6: nat)
    requires IsDate(Ymd(y, m, d1)) && IsDate(Ymd(y, m, d2)) && IsDate(Ymd(y, m, d3))
    requires m2 <= 12 && IsDate(Ymd(y, m2, d4)) && IsDate(Ymd(y, m2, d5)) && IsDate(Ymd(y6, m6, d6))
    ensures ParseFrom(st, [FullToken(y, m, d1), DayToken(d2), DayToken(d3), PairToken(m2, d4), DayToken(d5), FullToken(y6, m6, d6)]) ==
      Ok(ParseState(Context(Some(y6), Some(m6)),
        st.dates + {Ymd(y, m, d1), Ymd(y, m, d2), Ymd(y, m, d3), Ymd(y, m2, d4), Ymd(y, m2, d5), Ymd(y6, m6, d6)}))
  {
    var x := Ymd(y, m, d1);
    var next := ParseState(Context(Some(y), Some(m)), st.dates + {x});
    var rest := [DayToken(d2), DayToken(d3), PairToken(m2, d4), DayToken(d5), FullToken(y6, m6, d6)];
    var toks := [FullToken(y, m, d1), DayToken(d2), DayToken(d3), PairToken(m2, d4), DayToken(d5), FullToken(y6, m6, d6)];
    ShapeFrom1(next, d2, d3, m2, d4, d5, y6, m6, d6);
    DateFits(x);
    FullTokenStep(st, y, m, d1);
    assert toks[0] == FullToken(y, m, d1) && toks[1..] == rest;
    assert next.dates + {Ymd(y, m, d2), Ymd(y, m, d3), Ymd(y, m2, d4), Ymd(y, m2, d5), Ymd(y6, m6, d6)} ==
      st.dates + {x, Ymd(y, m, d2), Ymd(y, m, d3), Ymd(y, m2, d4), Ymd(y, m2, d5), Ymd(y6, m6, d6)};
  }

  lemma ShapeFrom1(st: ParseState, d2: nat, d3: nat, m2: nat, d4: nat, d5: nat, y6: nat, m6: nat, d6: nat)
    requires st.ctx.year.Some? && st.ctx.month.Some? && m2 <= 12
    requires IsDate(Ymd(st.ctx.year.value, st.ctx.month.value, d2)) && IsDate(Ymd(st.ctx.year.value, st.ctx.month.value, d3))
    requires IsDate(Ymd(st.ctx.year.value, m2, d4)) && IsDate(Ymd(st.ctx.year.value, m2, d5)) && IsDate(Ymd(y6, m6, d6))
    ensures ParseFrom(st, [DayToken(d2), DayToken(d3), PairToken(m2, d4), DayToken(d5), FullToken(y6, m6, d6)]) ==
      Ok(ParseState(Context(Some(y6), Some(m6)),
        st.dates + {Ymd(st.ctx.year.value, st.ctx.month.value, d2), Ymd(st.ctx.year.value, st.ctx.month.value, d3),
          Ymd(st.ctx.year.value, m2, d4), Ymd(st.ctx.year.value, m2, d5), Ymd(y6, m6, d6)}))
  {
    var x := Ymd(st.ctx.year.value, st.ctx.month.value, d2);
    var next := ParseState(st.ctx, st.dates + {x});
    var rest := [DayToken(d3), PairToken(m2, d4), DayToken(d5), FullToken(y6, m6, d6)];
    ShapeFrom2(next, d3, m2, d4, d5, y6, m6, d6);
    DateFits(x);
    DayTokenStep(st, d2);
    var toks := [DayToken(d2), DayToken(d3), PairToken(m2, d4), DayToken(d5), FullToken(y6, m6, d6)];
    assert toks[0] == DayToken(d2) && toks[1..] == rest;
    assert next.dates + {Ymd(st.ctx.year.value, st.ctx.month.value, d3), Ymd(st.ctx.year.value, m2, d4),
        Ymd(st.ctx.year.value, m2, d5), Ymd(y6, m6, d6)} ==
      st.dates + {x, Ymd(st.ctx.year.value, st.ctx.month.value, d3), Ymd(st.ctx.year.value, m2, d4),
        Ymd(st.ctx.year.value, m2, d5), Ymd(y6, m6, d6)};
  }

  lemma ShapeFrom2(st: ParseState, d3: nat, m2: nat, d4: nat, d5: nat, y6: nat, m6: nat, d6: nat)
    requires st.ctx.year.Some? && st.ctx.month.Some? && m2 <= 12
    requires IsDate(Ymd(st.ctx.year.value, st.ctx.month.value, d3))
    requires IsDate(Ymd(st.ctx.year.value, m2, d4)) && IsDate(Ymd(st.ctx.year.value, m2, d5)) && IsDate(Ymd(y6, m6, d6))
    ensures ParseFrom(st, [DayToken(d3), PairToken(m2, d4), DayToken(d5), FullToken(y6, m6, d6)]) ==
      Ok(ParseState(Context(Some(y6), Some(m6)),
        st.dates + {Ymd(st.ctx.year.value, st.ctx.month.value, d3),
          Ymd(st.ctx.year.value, m2, d4), Ymd(st.ctx.year.value, m2, d5), Ymd(y6, m6, d6)}))
  {
    var x := Ymd(st.ctx.year.value, st.ctx.month.value, d3);
    var next := ParseState(st.ctx, st.dates + {x});
    var rest := [PairToken(m2, d4), DayToken(d5), FullToken(y6, m6, d6)];
    ShapeFrom3(next, m2, d4, d5, y6, m6, d6);
    DateFits(x);
    DayTokenStep(st, d3);
    var toks := [DayToken(d3), PairToken(m2, d4), DayToken(d5), FullToken(y6, m6, d6)];
    assert toks[0] == DayToken(d3) && toks[1..] == rest;
    assert next.dates + {Ymd(st.ctx.year.value, m2, d4), Ymd(st.ctx.year.value, m2, d5), Ymd(y6, m6, d6)} ==
      st.dates + {x, Ymd(st.ctx.year.value, m2, d4), Ymd(st.ctx.year.value, m2, d5), Ymd(y6, m6, d6)};
  }

  lemma ShapeFrom3(st: ParseState, m2: nat, d4: nat, d5: nat, y6: nat, m6: nat, d6: nat)
    requires st.ctx.year.Some? && m2 <= 12
    requires IsDate(Ymd(st.ctx.year.value, m2, d4)) && IsDate(Ymd(st.ctx.year.value, m2, d5)) && IsDate(Ymd(y6, m6, d6))
    ensures ParseFrom(st, [PairToken(m2, d4), DayToken(d5), FullToken(y6, m6, d6)]) ==
      Ok(ParseState(Context(Some(y6), Some(m6)),
        st.dates + {Ymd(st.ctx.year.value, m2, d4), Ymd(st.ctx.year.value, m2, d5), Ymd(y6, m6, d6)}))
  {
    var x := Ymd(st.ctx.year.value, m2, d4);
    var next := ParseState(Context(st.ctx.year, Some(m2)), st.dates + {x});
    var rest := [DayToken(d5), FullToken(y6, m6, d6)];
    ShapeFrom4(next, d5, y6, m6, d6);
    DateFits(x);
    PairTokenStep(st, m2, d4);
    var toks := [PairToken(m2, d4), DayToken(d5), FullToken(y6, m6, d6)];
    assert toks[0] == PairToken(m2, d4) && toks[1..] == rest;
    assert next.dates + {Ymd(st.ctx.year.value, m2, d5), Ymd(y6, m6, d6)} ==
      st.dates + {x, Ymd(st.ctx.year.value, m2, d5), Ymd(y6, m6, d6)};
  }

  lemma ShapeFrom4(st: ParseState, d5: nat, y6: nat, m6: nat, d6: nat)
    requires st.ctx.year.Some? && st.ctx.month.Some?
    requires IsDate(Ymd(st.ctx.year.value, st.ctx.month.value, d5)) && IsDate(Ymd(y6, m6, d6))
    ensures ParseFrom(st, [DayToken(d5), FullToken(y6, m6, d6)]) ==
      Ok(ParseState(Context(Some(y6), Some(m6)), st.dates + {Ymd(st.ctx.year.value, st.ctx.month.value, d5), Ymd(y6, m6, d6)}))
  {
    var x := Ymd(st.ctx.year.value, st.ctx.month.value, d5);
    var next := ParseState(st.ctx, st.dates + {x});
    var fin := ParseState(Context(Some(y6), Some(m6)), next.dates + {Ymd(y6, m6, d6)});
    var toks := [DayToken(d5), FullToken(y6, m6, d6)];
    assert ParseFrom(next, toks[1..]) == Ok(fin) by {
      DateFits(Ymd(y6, m6, d6));
      FullTokenStep(next, y6, m6, d6);
      assert toks[1..][0] == FullToken(y6, m6, d6) && toks[1..][1..] == [];
    }
    DateFits(x);
    DayTokenStep(st, d5);
    assert toks[0] == DayToken(d5);
    assert fin.dates == st.dates + {x, Ymd(y6, m6, d6)};
  }

  /** Pieces that are already stripped and not empty are the tokens themselves. */
  lemma {:induction false} TokensOfStripped(pieces: seq<string>)
    requires forall i | 0 <= i < |pieces| :: pieces[i] != [] && Strip(pieces[i]) == pieces[i]
    ensures Tokens(pieces) == pieces
    decreases |pieces|
  {
    if pieces != [] {
      assert Kept(pieces[0]) == [pieces[0]];
      TokensOfStripped(pieces[1..]);
      assert pieces == [pieces[0]] + pieces[1..];
    }
  }

  lemma ExampleNumerals()
    ensures NatToString(2025) == "2025" && NatToString(2026) == "2026"
    ensures NatToString(1) == "1" && NatToString(2) == "2" && NatToString(3) == "3"
    ensures NatToString(5) == "5" && NatToString(15) == "15" && NatToString(20) == "20"
    ensures NatToString(25) == "25"
  {
    assert NatToString(202) == "202" by {
      assert NatToString(20) == "20" by {
        assert NatToString(2) == "2";
      }
    }
  }

  lemma ExampleTokens()
    ensures FullToken(2025, 2, 1) == "2025-2-1" && FullToken(2026, 1, 15) == "2026-1-15"
    ensures PairToken(3, 25) == "3-25"
    ensures DayToken(2) == "2" && DayToken(5) == "5" && DayToken(20) == "20"
  {
    ExampleNumerals();
    assert "2025" + "-" + "2" + "-" + "1" == "2025-2-1";
    assert "2026" + "-" + "1" + "-" + "15" == "2026-1-15";
    assert "3" + "-" + "25" == "3-25";
  }

  lemma ExampleJoin()
    ensures Join(["2025-2-1", "2", "5", "3-25", "20", "2026-1-15"], ',') == "2025-2-1,2,5,3-25,20,2026-1-15"
  {
    JoinSix("2025-2-1", "2", "5", "3-25", "20", "2026-1-15", ',');
    assert "2025-2-1" + [','] + "2" + [','] + "5" + [','] + "3-25" + [','] + "20" + [','] + "2026-1-15"
      == "2025-2-1,2,5,3-25,20,2026-1-15";
  }

  lemma JoinSix(p0: string, p1: string, p2: string, p3: string, p4: string, p5: string, sep: char)
    ensures Join([p0, p1, p2, p3, p4, p5], sep) == p0 + [sep] + p1 + [sep] + p2 + [sep] + p3 + [sep] + p4 + [sep] + p5
  {
    assert Join([p4, p5], sep) == p4 + [sep] + p5 by {
      assert [p4, p5][1..] == [p5];
    }
    assert Join([p2, p3, p4, p5], sep) == p2 + [sep] + p3 + [sep] + (p4 + [sep] + p5) by {
      assert [p2, p3, p4, p5][1..] == [p3, p4, p5];
      assert [p3, p4, p5][1..] == [p4, p5];
    }
    assert [p0, p1, p2, p3, p4, p5][1..] == [p1, p2, p3, p4, p5];
    assert [p1, p2, p3, p4, p5][1..] == [p2, p3, p4, p5];
  }
}
