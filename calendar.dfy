/**
  The date windows the statistics client asks the upstream summaries
  endpoint for: calendar days in the proleptic Gregorian calendar, the
  `ymd`, `startOfISOWeek` and `addDays` helpers, and the choice of start and
  end day for each range-based timeframe. The time of day that the client
  sets on its dates is not modelled, because only the `YYYY-MM-DD` of each
  bound is sent.
 */
module Calendar {
  import opened Strings
  import opened Types

  datatype Date = Date(year: int, month: int, day: int)

  predicate IsLeapYear(y: int) {
    y % 4 == 0 && (y % 100 != 0 || y % 400 == 0)
  }

  function DaysInYear(y: int): int {
    if IsLeapYear(y) then 366 else 365
  }

  function DaysInMonth(y: int, m: int): int
    requires 1 <= m <= 12
  {
    if m == 2 then (if IsLeapYear(y) then 29 else 28)
    else if m == 4 || m == 6 || m == 9 || m == 11 then 30
    else 31
  }

  /** A date that `new Date(...)` would not have to normalize. */
  predicate ValidDate(d: Date) {
    1 <= d.month <= 12 && 1 <= d.day <= DaysInMonth(d.year, d.month)
  }

  // ---------------------------------------------------------------------------
  // Day numbers
  // ---------------------------------------------------------------------------

  /** Days in the months of year `y` before month `m`. */
  function DaysBeforeMonth(y: int, m: int): int
    requires 1 <= m <= 13
  {
    [0, 31, 59, 90, 120, 151, 181, 212, 243, 273, 304, 334, 365][m - 1]
      + (if m > 2 && IsLeapYear(y) then 1 else 0)
  }

  /** Each month starts where the one before it ends. */
  lemma MonthStep(y: int, m: int)
    requires 1 <= m <= 12
    ensures DaysBeforeMonth(y, m + 1) == DaysBeforeMonth(y, m) + DaysInMonth(y, m)
  {
  }

  /** Days in all years before year `y`, counted from a fixed origin. */
  function DaysBeforeYear(y: int): int {
    365 * y + (y - 1) / 4 - (y - 1) / 100 + (y - 1) / 400
  }

  /** Consecutive days have consecutive numbers (see `NextDayNumber`). */
  function DayNumber(d: Date): int
    requires ValidDate(d)
  {
    DaysBeforeYear(d.year) + DaysBeforeMonth(d.year, d.month) + d.day - 1
  }

  lemma DivStep4(y: int)
    ensures y / 4 - (y - 1) / 4 == if y % 4 == 0 then 1 else 0
  {
  }

  lemma DivStep100(y: int)
    ensures y / 100 - (y - 1) / 100 == if y % 100 == 0 then 1 else 0
  {
  }

  lemma DivStep400(y: int)
    ensures y / 400 - (y - 1) / 400 == if y % 400 == 0 then 1 else 0
  {
  }

  /** A year has as many day numbers as it has days. */
  lemma YearLength(y: int)
    ensures DaysBeforeYear(y + 1) == DaysBeforeYear(y) + DaysInYear(y)
  {
    DivStep4(y);
    DivStep100(y);
    DivStep400(y);
    CenturyDivisible(y);
    QuadCenturyDivisible(y);
  }

  lemma CenturyDivisible(y: int)
    ensures y % 100 == 0 ==> y % 4 == 0
  {
    if y % 100 == 0 {
      var k := y / 100;
      assert y == 4 * (25 * k);
    }
  }

  lemma QuadCenturyDivisible(y: int)
    ensures y % 400 == 0 ==> y % 100 == 0
  {
    if y % 400 == 0 {
      var k := y / 400;
      assert y == 100 * (4 * k);
    }
  }

  // ---------------------------------------------------------------------------
  // Moving by days
  // ---------------------------------------------------------------------------

  function NextDay(d: Date): (r: Date)
    requires ValidDate(d)
    ensures ValidDate(r)
  {
    if d.day < DaysInMonth(d.year, d.month) then Date(d.year, d.month, d.day + 1)
    else if d.month < 12 then Date(d.year, d.month + 1, 1)
    else Date(d.year + 1, 1, 1)
  }

  function PrevDay(d: Date): (r: Date)
    requires ValidDate(d)
    ensures ValidDate(r)
  {
    if d.day > 1 then Date(d.year, d.month, d.day - 1)
    else if d.month > 1 then Date(d.year, d.month - 1, DaysInMonth(d.year, d.month - 1))
    else Date(d.year - 1, 12, 31)
  }

  lemma NextDayNumber(d: Date)
    requires ValidDate(d)
    ensures DayNumber(NextDay(d)) == DayNumber(d) + 1
  {
    if d.day == DaysInMonth(d.year, d.month) {
      MonthStep(d.year, d.month);
      if d.month == 12 {
        YearLength(d.year);
      }
    }
  }

  lemma PrevDayNumber(d: Date)
    requires ValidDate(d)
    ensures DayNumber(PrevDay(d)) == DayNumber(d) - 1
  {
    if d.day == 1 && d.month > 1 {
      MonthStep(d.year, d.month - 1);
    } else if d.day == 1 {
      YearLength(d.year - 1);
      MonthStep(d.year - 1, 12);
    }
  }

  /** `addDays`: `setDate(getDate() + n)`, which rolls over month and year ends. */
  function AddDays(d: Date, n: int): (r: Date)
    requires ValidDate(d)
    ensures ValidDate(r)
    decreases if n < 0 then -n else n
  {
    if n == 0 then d
    else if n > 0 then AddDays(NextDay(d), n - 1)
    else AddDays(PrevDay(d), n + 1)
  }

  /** Adding `n` days moves the day number by exactly `n`. */
  lemma {:induction false} AddDaysNumber(d: Date, n: int)
    requires ValidDate(d)
    ensures DayNumber(AddDays(d, n)) == DayNumber(d) + n
    decreases if n < 0 then -n else n
  {
    if n > 0 {
      NextDayNumber(d);
      AddDaysNumber(NextDay(d), n - 1);
    } else if n < 0 {
      PrevDayNumber(d);
      AddDaysNumber(PrevDay(d), n + 1);
    }
  }

  /**
    `getDay()`: 0 is Sunday, 1 Monday, ..., 6 Saturday. With the origin of
    `DayNumber`, day numbers that are multiples of seven fall on a Sunday
    (see `EpochIsThursday`).
   */
  function Weekday(d: Date): (w: int)
    requires ValidDate(d)
    ensures 0 <= w < 7
  {
    DayNumber(d) % 7
  }

  /** 1 January 1970, the origin of JavaScript time, was a Thursday. */
  lemma EpochIsThursday(d: Date)
    requires d == Date(1970, 1, 1)
    ensures Weekday(d) == 4
  {
    assert DayNumber(d) == 719527;
  }

  /** `startOfISOWeek`: back to the Monday on or before `d`, at most six days earlier. */
  function StartOfIsoWeek(d: Date): (r: Date)
    requires ValidDate(d)
    ensures ValidDate(r) && Weekday(r) == 1
    ensures DayNumber(d) - 6 <= DayNumber(r) <= DayNumber(d)
  {
    var back := (Weekday(d) + 6) % 7;
    AddDaysNumber(d, -back);
    MondayOffset(DayNumber(d), back, DayNumber(AddDays(d, -back)));
    AddDays(d, -back)
  }

  /** Going back `(n % 7 + 6) % 7` days from day number `n` lands on a Monday at most six days back. */
  lemma MondayOffset(n: int, back: int, m: int)
    requires back == (n % 7 + 6) % 7 && m == n - back
    ensures m % 7 == 1 && n - 6 <= m <= n
  {
  }

  // ---------------------------------------------------------------------------
  // ymd
  // ---------------------------------------------------------------------------

  /** `ymd`: the year as written by `String`, then two-digit month and day. */
  function Ymd(d: Date): (r: string)
    requires ValidDate(d)
    ensures YmdText(r, d)
  {
    YmdFields(d);
    IntToString(d.year) + "-" + PadStart(NatToString(d.month), 2, '0')
      + "-" + PadStart(NatToString(d.day), 2, '0')
  }

  lemma YmdFields(d: Date)
    requires ValidDate(d)
    ensures YmdText(IntToString(d.year) + "-" + PadStart(NatToString(d.month), 2, '0')
      + "-" + PadStart(NatToString(d.day), 2, '0'), d)
  {
    var m := PadStart(NatToString(d.month), 2, '0');
    var dd := PadStart(NatToString(d.day), 2, '0');
    assert d.day <= 31;
    TwoDigits(d.month);
    TwoDigits(d.day);
    DateTail(IntToString(d.year) + "-" + m + "-" + dd, IntToString(d.year), m, dd, d);
  }

  /**
    `s` is what `ymd` writes for `d`, whatever the year: `String(year)`, a
    dash, two digits that read back as the month, a dash, and two digits
    that read back as the day.
   */
  predicate YmdText(s: string, d: Date) {
    && |s| >= 6 && s[..|s| - 6] == IntToString(d.year)
    && s[|s| - 6] == '-' && s[|s| - 3] == '-'
    && AllDigits(s[|s| - 5..|s| - 3]) && DigitsValue(s[|s| - 5..|s| - 3]) == d.month
    && AllDigits(s[|s| - 2..]) && DigitsValue(s[|s| - 2..]) == d.day
  }

  lemma DateTail(s: string, y: string, m: string, dd: string, d: Date)
    requires s == y + "-" + m + "-" + dd && y == IntToString(d.year)
    requires |m| == 2 && |dd| == 2 && AllDigits(m) && AllDigits(dd)
    requires DigitsValue(m) == d.month && DigitsValue(dd) == d.day
    ensures YmdText(s, d)
  {
    var n := |s|;
    assert n == |y| + 6;
    assert s[..n - 6] == y;
    assert s[n - 6] == '-';
    assert s[n - 5..n - 3] == m;
    assert s[n - 3] == '-';
    assert s[n - 2..] == dd;
  }

  /**
    `s` is `YYYY-MM-DD`: ten characters, dashes at positions 4 and 7, and
    digit groups that read as `year`, `month` and `day`.
   */
  predicate IsoDateText(s: string, year: nat, month: nat, day: nat) {
    && |s| == 10 && s[4] == '-' && s[7] == '-'
    && AllDigits(s[..4]) && AllDigits(s[5..7]) && AllDigits(s[8..])
    && DigitsValue(s[..4]) == year
    && DigitsValue(s[5..7]) == month
    && DigitsValue(s[8..]) == day
  }

  /**
    For a four-digit year `ymd` writes exactly `YYYY-MM-DD`, and reading the
    three digit groups back gives the year, month and day again.
   */
  lemma YmdRoundTrip(d: Date)
    requires ValidDate(d) && 1000 <= d.year <= 9999
    ensures IsoDateText(Ymd(d), d.year, d.month, d.day)
    ensures Ymd(d)[..4] == NatToString(d.year)
  {
    YearDigits(d.year);
    assert IntToString(d.year) == NatToString(d.year);
    FourDigitYearText(Ymd(d), d);
  }

  /** `ymd` text whose year part has four digits is `YYYY-MM-DD`. */
  lemma FourDigitYearText(s: string, d: Date)
    requires YmdText(s, d) && |IntToString(d.year)| == 4
    requires AllDigits(IntToString(d.year)) && DigitsValue(IntToString(d.year)) == d.year
    ensures IsoDateText(s, d.year, d.month, d.day) && s[..4] == IntToString(d.year)
  {
    assert |s| == 10;
  }

  /** A four-digit year is written as four digits that read back as the year. */
  lemma YearDigits(year: int)
    requires 1000 <= year <= 9999
    ensures |NatToString(year)| == 4 && AllDigits(NatToString(year))
    ensures DigitsValue(NatToString(year)) == year
  {
    FourDigits(year);
    NatToStringRoundTrip(year);
  }

  lemma FourDigits(n: nat)
    requires 1000 <= n <= 9999
    ensures |NatToString(n)| == 4
  {
    var a := n / 10;
    var b := a / 10;
    assert 100 <= a < 1000 && 10 <= b < 100;
    assert |NatToString(b)| == 2;
    assert |NatToString(a)| == 3;
  }

  // ---------------------------------------------------------------------------
  // The request window of each timeframe
  // ---------------------------------------------------------------------------

  datatype Window = Window(start: Date, end: Date)

  /**
    The `switch` of the statistics client: first and last day requested for
    a range-based timeframe. `all_time` never reaches it; it falls under the
    `default` branch here.
   */
  function DateWindow(tf: Timeframe, today: Date): (w: Window)
    requires ValidDate(today)
    ensures ValidDate(w.start) && ValidDate(w.end)
  {
    match tf
    case ThisWeek =>
      var start := StartOfIsoWeek(today);
      Window(start, AddDays(start, 6))
    case Last7Days => Window(AddDays(today, -6), today)
    case Last14Days => Window(AddDays(today, -13), today)
    case ThisMonth =>
      Window(Date(today.year, today.month, 1),
             Date(today.year, today.month, DaysInMonth(today.year, today.month)))
    case ThisYear => Window(Date(today.year, 1, 1), Date(today.year, 12, 31))
    case _ => Window(today, today)
  }

  /**
    The `start` and `end` query parameters of the summaries request: the
    `ymd` text of the window's first and last days, which bracket today.
   */
  function SummariesQuery(tf: Timeframe, today: Date): (q: (string, string))
    requires ValidDate(today)
    ensures var w := DateWindow(tf, today);
      && YmdText(q.0, w.start) && YmdText(q.1, w.end)
      && DayNumber(w.start) <= DayNumber(today) <= DayNumber(w.end)
  {
    var w := DateWindow(tf, today);
    WindowContainsToday(tf, today);
    (Ymd(w.start), Ymd(w.end))
  }

  /** Every window contains today. */
  lemma WindowContainsToday(tf: Timeframe, today: Date)
    requires ValidDate(today)
    ensures DayNumber(DateWindow(tf, today).start) <= DayNumber(today)
    ensures DayNumber(today) <= DayNumber(DateWindow(tf, today).end)
  {
    match tf
    case ThisWeek => ThisWeekWindow(today);
    case Last7Days => TrailingWindow(tf, today);
    case Last14Days => TrailingWindow(tf, today);
    case ThisMonth =>
    case ThisYear => ThisYearWindow(today);
    case _ =>
  }

  /** `this_week`: from the Monday of the ISO week through the Sunday after it. */
  lemma ThisWeekWindow(today: Date)
    requires ValidDate(today)
    ensures var w := DateWindow(ThisWeek, today);
      && Weekday(w.start) == 1
      && DayNumber(today) - 6 <= DayNumber(w.start) <= DayNumber(today)
      && DayNumber(w.end) == DayNumber(w.start) + 6
  {
    var start := StartOfIsoWeek(today);
    AddDaysNumber(start, 6);
  }

  /** `last_7_days` and `last_14_days`: seven or fourteen days ending today. */
  lemma TrailingWindow(tf: Timeframe, today: Date)
    requires ValidDate(today) && (tf == Last7Days || tf == Last14Days)
    ensures var w := DateWindow(tf, today);
      && w.end == today
      && DayNumber(w.end) - DayNumber(w.start) + 1 == (if tf == Last7Days then 7 else 14)
  {
    if tf == Last7Days {
      AddDaysNumber(today, -6);
    } else {
      AddDaysNumber(today, -13);
    }
  }

  /** `this_month`: every day of today's month. */
  lemma ThisMonthWindow(today: Date)
    requires ValidDate(today)
    ensures var w := DateWindow(ThisMonth, today);
      && w.start.year == w.end.year == today.year
      && w.start.month == w.end.month == today.month
      && w.start.day == 1
      && DayNumber(w.end) - DayNumber(w.start) + 1 == DaysInMonth(today.year, today.month)
  {
  }

  /** `this_year`: every day of today's year. */
  lemma ThisYearWindow(today: Date)
    requires ValidDate(today)
    ensures var w := DateWindow(ThisYear, today);
      && w.start.year == w.end.year == today.year
      && DayNumber(w.start) <= DayNumber(today) <= DayNumber(w.end)
      && DayNumber(w.end) - DayNumber(w.start) + 1 == DaysInYear(today.year)
  {
    MonthStep(today.year, today.month);
    MonthStep(today.year, 12);
  }

  /** `today` and the `default` branch: just today. */
  lemma SingleDayWindow(tf: Timeframe, today: Date)
    requires ValidDate(today) && (tf == Today || tf == AllTime)
    ensures DateWindow(tf, today) == Window(today, today)
  {
  }
}
