/**
  `fetchStats` of the statistics client: the upstream answer, already
  fetched, folded into a `NormalizedStatBundle`. The `all_time` branch
  copies two numbers; every other timeframe sums per-day summary records.
 */
module Stats {
  import opened Wrappers
  import opened Strings
  import opened Types
  import opened Aggregation

  /**
    One element of the summaries response's `data`: `grand_total.total_seconds`,
    `range.date`, and the `languages` and `projects` lists (a missing list is
    given here as the empty one, as `?? []` reads it).
   */
  datatype DayRecord = DayRecord(
    totalSeconds: Option<real>,
    date: Option<string>,
    languages: seq<Item>,
    projects: seq<Item>)

  /** The `data` of the `all_time` stats response: `total_seconds` and `daily_average`. */
  datatype AllTimeBody = AllTimeBody(totalSeconds: Option<real>, dailyAverage: Option<real>)

  /** The `key` argument of `agg`. */
  datatype Facet = Languages | Projects

  // ---------------------------------------------------------------------------
  // formatSeconds
  // ---------------------------------------------------------------------------

  /** Rounding toward zero, as JavaScript's `%` uses for its quotient. */
  function Trunc(x: real): int {
    if x >= 0.0 then x.Floor else -((-x).Floor)
  }

  /** `x % k` on JavaScript numbers: the remainder has the sign of `x`. */
  function JsRem(x: real, k: real): real
    requires k > 0.0
  {
    x - k * (Trunc(x / k) as real)
  }

  /** `Math.floor(secs / 3600)` and `Math.floor((secs % 3600) / 60)`. */
  function HoursMinutes(secs: real): (hm: (int, int))
    ensures secs >= 0.0 ==> 0 <= hm.0 && 0 <= hm.1 < 60
    ensures secs >= 0.0 ==>
      (3600 * hm.0 + 60 * hm.1) as real <= secs < (3600 * hm.0 + 60 * hm.1 + 60) as real
  {
    ((secs / 3600.0).Floor, (JsRem(secs, 3600.0) / 60.0).Floor)
  }

  /**
    `formatSeconds`: `"<h> hrs <m> mins"`. For non-negative seconds the two
    numbers read back as the whole hours and the minutes past them.
   */
  function FormatSeconds(secs: real): (r: string)
    ensures secs >= 0.0 ==> HrsMinsText(r, HoursMinutes(secs).0, HoursMinutes(secs).1)
  {
    var hm := HoursMinutes(secs);
    HrsMinsFields(hm.0, hm.1);
    IntToString(hm.0) + " hrs " + IntToString(hm.1) + " mins"
  }

  /** `r` is `"<h> hrs <m> mins"`, both numbers in shortest decimal. */
  predicate HrsMinsText(r: string, h: int, m: int) {
    && 0 <= h && 0 <= m
    && var k := |NatToString(h)|;
    && |r| == k + 10 + |NatToString(m)|
    && AllDigits(r[..k]) && DigitsValue(r[..k]) == h
    && r[k..k + 5] == " hrs "
    && AllDigits(r[k + 5..|r| - 5]) && DigitsValue(r[k + 5..|r| - 5]) == m
    && r[|r| - 5..] == " mins"
  }

  lemma HrsMinsFields(h: int, m: int)
    ensures 0 <= h && 0 <= m ==>
      HrsMinsText(IntToString(h) + " hrs " + IntToString(m) + " mins", h, m)
  {
    if 0 <= h && 0 <= m {
      var hs := NatToString(h);
      var ms := NatToString(m);
      var r := hs + " hrs " + ms + " mins";
      var k := |hs|;
      NatToStringRoundTrip(h);
      NatToStringRoundTrip(m);
      assert r[..k] == hs;
      assert r[k..k + 5] == " hrs ";
      assert r[k + 5..|r| - 5] == ms;
      assert r[|r| - 5..] == " mins";
    }
  }

  // ---------------------------------------------------------------------------
  // Totals and the daily average
  // ---------------------------------------------------------------------------

  /** `d.grand_total?.total_seconds ?? 0`. */
  function DaySeconds(d: DayRecord): real {
    d.totalSeconds.GetOr(0.0)
  }

  function DaySecondsOf(days: seq<DayRecord>): (ss: seq<real>)
    ensures |ss| == |days| && forall i :: 0 <= i < |days| ==> ss[i] == DaySeconds(days[i])
  {
    seq(|days|, i requires 0 <= i < |days| => DaySeconds(days[i]))
  }

  /** `totalSeconds`: the `reduce` over the days. */
  function TotalSeconds(days: seq<DayRecord>): real {
    Sum(DaySecondsOf(days))
  }

  lemma {:induction false} SumAppend(xs: seq<real>, ys: seq<real>)
    ensures Sum(xs + ys) == Sum(xs) + Sum(ys)
  {
    if ys != [] {
      var n := |ys| - 1;
      SumAppend(xs, ys[..n]);
      assert (xs + ys)[..|xs| + n] == xs + ys[..n];
    } else {
      assert xs + ys == xs;
    }
  }

  /** The total over two runs of days is the sum of their totals; a missing total adds 0. */
  lemma TotalSecondsAppend(a: seq<DayRecord>, b: seq<DayRecord>)
    ensures TotalSeconds(a + b) == TotalSeconds(a) + TotalSeconds(b)
  {
    assert DaySecondsOf(a + b) == DaySecondsOf(a) + DaySecondsOf(b);
    SumAppend(DaySecondsOf(a), DaySecondsOf(b));
  }

  /** `Math.round`: the nearest integer, halves rounded up. */
  function Round(x: real): (r: int)
    ensures x - 0.5 < r as real <= x + 0.5
  {
    (x + 0.5).Floor
  }

  /** `days.length || 1`. */
  function DayCount(days: seq<DayRecord>): (n: nat)
    ensures n >= 1 && (days != [] ==> n == |days|)
  {
    if |days| == 0 then 1 else |days|
  }

  /** `dailyAvg`: the total over the number of days, rounded; zero records give 0. */
  function DailyAverage(days: seq<DayRecord>): int {
    Round(TotalSeconds(days) / DayCount(days) as real)
  }

  /** The average times the number of days is within half a day's rounding of the total. */
  lemma DailyAverageBounds(days: seq<DayRecord>)
    ensures days == [] ==> DailyAverage(days) == 0
    ensures days != [] ==>
      && TotalSeconds(days) - 0.5 * |days| as real < DailyAverage(days) as real * |days| as real
      && DailyAverage(days) as real * |days| as real <= TotalSeconds(days) + 0.5 * |days| as real
  {
    if days != [] {
      var n := |days| as real;
      assert DayCount(days) as real == n;
      RoundedMeanBounds(TotalSeconds(days), n, DailyAverage(days) as real);
    }
  }

  lemma RoundedMeanBounds(total: real, n: real, avg: real)
    requires n > 0.0 && total / n - 0.5 < avg <= total / n + 0.5
    ensures total - 0.5 * n < avg * n
    ensures avg * n <= total + 0.5 * n
  {
    var mean := total / n;
    var lo, hi := mean - 0.5, mean + 0.5;
    assert mean * n == total;
    MultiplyBounds(lo, avg, hi, n);
    assert lo * n == total - 0.5 * n;
    assert hi * n == total + 0.5 * n;
    assert lo * n < avg * n && avg * n <= hi * n;
  }

  lemma MultiplyBounds(lo: real, x: real, hi: real, n: real)
    requires n > 0.0 && lo < x <= hi
    ensures lo * n < x * n <= hi * n
  {
  }

  // ---------------------------------------------------------------------------
  // The most active day
  // ---------------------------------------------------------------------------

  /** Day `i` has the most seconds, and every earlier day strictly fewer. */
  predicate IsMostActive(days: seq<DayRecord>, i: int) {
    && 0 <= i < |days|
    && (forall j :: 0 <= j < |days| ==> DaySeconds(days[j]) <= DaySeconds(days[i]))
    && (forall j :: 0 <= j < i ==> DaySeconds(days[j]) < DaySeconds(days[i]))
  }

  /** The day the loop settles on: a later day replaces the current one only with strictly more seconds. */
  function MostActiveIndex(days: seq<DayRecord>): (i: nat)
    requires days != []
    ensures IsMostActive(days, i)
  {
    var n := |days| - 1;
    if n == 0 then 0
    else
      var best := MostActiveIndex(days[..n]);
      if DaySeconds(days[n]) > DaySeconds(days[best]) then n else best
  }

  /** Only one day is the first day with the most seconds. */
  lemma MostActiveUnique(days: seq<DayRecord>, i: int, j: int)
    requires IsMostActive(days, i) && IsMostActive(days, j)
    ensures i == j
  {
    assert DaySeconds(days[i]) == DaySeconds(days[j]);
  }

  /** `most_active_day`: all null without records. */
  function MostActive(days: seq<DayRecord>): ActiveDay {
    if days == [] then ActiveDay(None, None, None)
    else
      var best := days[MostActiveIndex(days)];
      ActiveDay(best.date, Some(DaySeconds(best)), Some(FormatSeconds(DaySeconds(best))))
  }

  /** The most-active-day loop over `madDate` and `madSecs`. */
  method MostActiveDay(days: seq<DayRecord>) returns (r: ActiveDay)
    ensures r == MostActive(days)
    ensures days == [] <==> r.seconds == None
    ensures forall i :: IsMostActive(days, i) ==>
      r.seconds == Some(DaySeconds(days[i])) && r.date == days[i].date
  {
    var madDate: Option<string> := None;
    var madSecs: Option<real> := None;
    ghost var best := 0;
    for k := 0 to |days|
      invariant k == 0 ==> madSecs == None && madDate == None
      invariant k > 0 ==>
        && best < k && best == MostActiveIndex(days[..k])
        && madSecs == Some(DaySeconds(days[best])) && madDate == days[best].date
    {
      var secs := DaySeconds(days[k]);
      assert days[..k + 1][..k] == days[..k];
      if madSecs == None || secs > madSecs.value {
        madSecs := Some(secs);
        madDate := days[k].date;
        best := k;
      }
    }
    assert days[..|days|] == days;
    r := ActiveDay(madDate, madSecs, if madSecs.Some? then Some(FormatSeconds(madSecs.value)) else None);
    forall i | IsMostActive(days, i)
      ensures r.seconds == Some(DaySeconds(days[i])) && r.date == days[i].date
    {
      MostActiveUnique(days, i, MostActiveIndex(days));
    }
  }

  // ---------------------------------------------------------------------------
  // agg over the days
  // ---------------------------------------------------------------------------

  /** `d[key] ?? []`. */
  function FacetItems(d: DayRecord, key: Facet): seq<Item> {
    match key
    case Languages => d.languages
    case Projects => d.projects
  }

  /** The items the two loops of `agg` visit, in order. */
  function AllItems(days: seq<DayRecord>, key: Facet): seq<Item> {
    if days == [] then []
    else AllItems(days[..|days| - 1], key) + FacetItems(days[|days| - 1], key)
  }

  /** The inner loop of `agg`: one day's items added to the `Map`. */
  method AddItems(m0: seq<Item>, ghost seen: seq<Item>, items: seq<Item>) returns (m: seq<Item>)
    requires m0 == Accumulate(seen)
    ensures m == Accumulate(seen + items)
  {
    m := m0;
    assert seen + items[..0] == seen;
    for j := 0 to |items|
      invariant m == Accumulate(seen + items[..j])
    {
      var x := items[j];
      PrefixSnoc(seen, items, j);
      AccumulateSnoc(seen + items[..j], x);
      m := Set(m, x.name, Get(m, x.name).GetOr(0.0) + x.seconds);
    }
    assert items[..|items|] == items;
  }

  lemma PrefixSnoc(seen: seq<Item>, items: seq<Item>, j: int)
    requires 0 <= j < |items|
    ensures seen + items[..j + 1] == (seen + items[..j]) + [items[j]]
  {
    assert items[..j + 1] == items[..j] + [items[j]];
  }

  /** The outer loop of `agg`: every day's items added to an empty `Map`. */
  method AggregateSeconds(days: seq<DayRecord>, key: Facet) returns (m: seq<Item>)
    ensures m == Accumulate(AllItems(days, key))
    ensures GroupedBy(m, AllItems(days, key))
  {
    m := [];
    for i := 0 to |days|
      invariant m == Accumulate(AllItems(days[..i], key))
    {
      assert days[..i + 1][..i] == days[..i];
      m := AddItems(m, AllItems(days[..i], key), FacetItems(days[i], key));
    }
    assert days[..|days|] == days;
    AccumulateGroups(AllItems(days, key));
  }

  // ---------------------------------------------------------------------------
  // Bundles
  // ---------------------------------------------------------------------------

  /** `.slice(0, 5)`. */
  function TopFive(xs: seq<LangAgg>): seq<LangAgg> {
    xs[..if |xs| < 5 then |xs| else 5]
  }

  /** The top five of a list sorted largest first: its head, and nothing left out beats it. */
  lemma TopFiveIsTop(xs: seq<LangAgg>)
    requires SortedDesc(xs)
    ensures |TopFive(xs)| == if |xs| < 5 then |xs| else 5
    ensures TopFive(xs) == xs[..|TopFive(xs)|]
    ensures forall i, j :: 0 <= i < |TopFive(xs)| <= j < |xs| ==> xs[j].seconds <= TopFive(xs)[i].seconds
  {
  }

  /** `{ seconds: x, text: x != null ? formatSeconds(x) : null }`. */
  function Described(secs: Option<real>): Duration {
    Duration(secs, if secs.Some? then Some(FormatSeconds(secs.value)) else None)
  }

  /**
    The `all_time` branch: no facets and no most active day, whatever
    upstream sent; the two numbers are copied, with a text exactly when each
    is present.
   */
  function AllTimeBundle(fetchedAt: string, body: AllTimeBody): (b: Bundle)
    ensures b.timeframe == AllTime
    ensures b.topLanguages == [] && b.topProjects == []
    ensures b.languagesUsed == [] && b.languagesByUsage == []
    ensures b.mostActiveDay == ActiveDay(None, None, None)
    ensures b.totalTime.seconds == body.totalSeconds
    ensures b.dailyAverage.seconds == body.dailyAverage
    ensures b.totalTime.text.Some? <==> body.totalSeconds.Some?
    ensures b.dailyAverage.text.Some? <==> body.dailyAverage.Some?
  {
    Bundle(AllTime, fetchedAt, Described(body.dailyAverage), Described(body.totalSeconds),
           [], ActiveDay(None, None, None), [], [], [])
  }

  /**
    The bundle of a range-based timeframe, built from the summaries' `data`.
    Totals: the total is the sum of the day totals, with a text exactly when
    it is not 0; the average is always present and is 0 without records; the
    most active day has seconds exactly when there are records. Lists:
    `languages_by_usage` names every language once with its summed seconds,
    largest first, `languages_used` is its names in the same order, and the
    top lists are the first five entries.
   */
  function RangeBundle(tf: Timeframe, fetchedAt: string, days: seq<DayRecord>): (b: Bundle)
    ensures b.timeframe == tf
    ensures b.totalTime.seconds == Some(TotalSeconds(days))
    ensures b.totalTime.text == None <==> TotalSeconds(days) == 0.0
    ensures b.dailyAverage.seconds.Some? && b.dailyAverage.text.Some?
    ensures days == [] ==> b.dailyAverage.seconds == Some(0.0)
    ensures b.mostActiveDay.seconds == None <==> days == []
    ensures b.mostActiveDay.date.Some? ==> days != []
    ensures var items := AllItems(days, Languages);
      && b.languagesByUsage == Agg(items)
      && SortedDesc(b.languagesByUsage)
      && b.languagesUsed == Names(b.languagesByUsage)
      && NoDup(b.languagesUsed)
      && (forall n :: n in b.languagesUsed <==> n in Keys(items))
      && (forall i :: 0 <= i < |b.languagesByUsage| ==>
            b.languagesByUsage[i].seconds == SumFor(items, b.languagesByUsage[i].name))
      && |b.topLanguages| == (if |b.languagesByUsage| < 5 then |b.languagesByUsage| else 5)
      && b.topLanguages == b.languagesByUsage[..|b.topLanguages|]
    ensures b.topProjects == TopFive(Agg(AllItems(days, Projects)))
  {
    DailyAverageBounds(days);
    TopFiveIsTop(Agg(AllItems(days, Languages)));
    var total := TotalSeconds(days);
    var avg := DailyAverage(days) as real;
    var langs := Agg(AllItems(days, Languages));
    var projects := Agg(AllItems(days, Projects));
    Bundle(tf, fetchedAt,
           Duration(Some(avg), Some(FormatSeconds(avg))),
           Duration(Some(total), if total != 0.0 then Some(FormatSeconds(total)) else None),
           TopFive(langs), MostActive(days), TopFive(projects), Names(langs), langs)
  }

  /** The range part of `fetchStats`, step by step. */
  method SummariesBundle(tf: Timeframe, fetchedAt: string, days: seq<DayRecord>) returns (b: Bundle)
    ensures b == RangeBundle(tf, fetchedAt, days)
  {
    var total := TotalSeconds(days);
    var avg := DailyAverage(days) as real;
    var mad := MostActiveDay(days);
    var langMap := AggregateSeconds(days, Languages);
    var projectMap := AggregateSeconds(days, Projects);
    var langs := SortBySeconds(WithPercents(langMap));
    var projects := SortBySeconds(WithPercents(projectMap));
    b := Bundle(tf, fetchedAt,
                Duration(Some(avg), Some(FormatSeconds(avg))),
                Duration(Some(total), if total != 0.0 then Some(FormatSeconds(total)) else None),
                TopFive(langs), mad, TopFive(projects), Names(langs), langs);
  }

  /**
    `fetchStats(tf)`, given what upstream answered: `allTime` is the `data` of
    the `all_time` stats request, `days` the `data` of the summaries request
    for the window of `tf` (an absent `data` given as the empty sequence).
   */
  method FetchStats(tf: Timeframe, fetchedAt: string, allTime: AllTimeBody, days: seq<DayRecord>)
    returns (b: Bundle)
    ensures tf == AllTime ==> b == AllTimeBundle(fetchedAt, allTime)
    ensures tf != AllTime ==> b == RangeBundle(tf, fetchedAt, days)
  {
    if tf == AllTime {
      b := AllTimeBundle(fetchedAt, allTime);
    } else {
      b := SummariesBundle(tf, fetchedAt, days);
    }
  }
}
