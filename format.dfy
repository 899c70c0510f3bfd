/**
  The human-readable view of statistic bundles: the language filter, the
  formatted bundle and the formatted map of all timeframes.
  `MIN_LANG_SECONDS` and `REWEIGHT_FILTERED_PERCENTS`, read from the
  environment at start-up, are the `minSeconds` and `reweight` arguments,
  and `toLocalDateTime` is the `localDateTime` argument.
 */
module Format {
  import opened Wrappers
  import opened Types
  import opened Aggregation
  import opened FormatUtil

  /** The `seconds` of every entry, in order. */
  function LangSeconds(xs: seq<LangAgg>): (ss: seq<real>)
    ensures |ss| == |xs| && forall i :: 0 <= i < |xs| ==> ss[i] == xs[i].seconds
  {
    seq(|xs|, i requires 0 <= i < |xs| => xs[i].seconds)
  }

  /** `items.filter((x) => x.seconds >= MIN_LANG_SECONDS)`. */
  function KeepAtLeast(xs: seq<LangAgg>, minSeconds: real): (r: seq<LangAgg>)
    ensures |r| <= |xs|
    ensures forall x :: x in r ==> x in xs && x.seconds >= minSeconds
    decreases |xs|
  {
    if xs == [] then []
    else (if xs[0].seconds >= minSeconds then [xs[0]] else []) + KeepAtLeast(xs[1..], minSeconds)
  }

  /** Every percent recomputed against the total of the kept entries, with `|| 1`. */
  function Reweigh(kept: seq<LangAgg>): (r: seq<LangAgg>)
    ensures |r| == |kept|
  {
    var total := Sum(LangSeconds(kept));
    seq(|kept|, i requires 0 <= i < |kept| => kept[i].(percent := Share(kept[i].seconds, total)))
  }

  /**
    `filterLanguages`: the entries with enough seconds, with their names and
    seconds kept; only the percents may change, and only when reweighting.
   */
  function FilterLanguages(xs: seq<LangAgg>, minSeconds: real, reweight: bool): (r: seq<LangAgg>)
    ensures |r| <= |xs|
    ensures var kept := KeepAtLeast(xs, minSeconds);
      && |r| == |kept|
      && Names(r) == Names(kept)
      && LangSeconds(r) == LangSeconds(kept)
      && (!reweight ==> r == kept)
  {
    var kept := KeepAtLeast(xs, minSeconds);
    if reweight then Reweigh(kept) else kept
  }

  /** An entry survives the filter exactly when it is in the input with enough seconds. */
  lemma {:induction false} KeepAtLeastMembers(xs: seq<LangAgg>, minSeconds: real, x: LangAgg)
    ensures x in KeepAtLeast(xs, minSeconds) <==> x in xs && x.seconds >= minSeconds
    decreases |xs|
  {
    if xs != [] {
      KeepAtLeastMembers(xs[1..], minSeconds, x);
      assert xs == [xs[0]] + xs[1..];
    }
  }

  /** Filtering a concatenation filters each part and keeps their order. */
  lemma {:induction false} KeepAtLeastAppend(a: seq<LangAgg>, b: seq<LangAgg>, minSeconds: real)
    ensures KeepAtLeast(a + b, minSeconds) == KeepAtLeast(a, minSeconds) + KeepAtLeast(b, minSeconds)
    decreases |a|
  {
    if a == [] {
      assert a + b == b;
    } else {
      assert (a + b)[1..] == a[1..] + b;
      KeepAtLeastAppend(a[1..], b, minSeconds);
    }
  }

  /** When every entry has enough seconds, nothing is dropped. */
  lemma {:induction false} KeepAtLeastAll(xs: seq<LangAgg>, minSeconds: real)
    requires forall i :: 0 <= i < |xs| ==> xs[i].seconds >= minSeconds
    ensures KeepAtLeast(xs, minSeconds) == xs
    decreases |xs|
  {
    if xs != [] {
      KeepAtLeastAll(xs[1..], minSeconds);
    }
  }

  /** Filtering twice is filtering once. */
  lemma KeepAtLeastIdempotent(xs: seq<LangAgg>, minSeconds: real)
    ensures KeepAtLeast(KeepAtLeast(xs, minSeconds), minSeconds) == KeepAtLeast(xs, minSeconds)
  {
    var kept := KeepAtLeast(xs, minSeconds);
    forall i | 0 <= i < |kept| ensures kept[i].seconds >= minSeconds {
      assert kept[i] in kept;
    }
    KeepAtLeastAll(kept, minSeconds);
  }

  /** Reweighted percents of the kept entries add up to 100, or to 0 when nothing has any time. */
  lemma ReweighedPercentsAddUp(xs: seq<LangAgg>, minSeconds: real)
    ensures var kept := KeepAtLeast(xs, minSeconds);
      Sum(Percents(FilterLanguages(xs, minSeconds, true)))
        == if Sum(LangSeconds(kept)) != 0.0 then 100.0 else 0.0
  {
    var kept := KeepAtLeast(xs, minSeconds);
    var r := Reweigh(kept);
    SharesSum(LangSeconds(kept), Percents(r));
  }

  /** Running the filter on its own output changes nothing, with or without reweighting. */
  lemma FilterIdempotent(xs: seq<LangAgg>, minSeconds: real, reweight: bool)
    ensures var once := FilterLanguages(xs, minSeconds, reweight);
      FilterLanguages(once, minSeconds, reweight) == once
  {
    var kept := KeepAtLeast(xs, minSeconds);
    var once := FilterLanguages(xs, minSeconds, reweight);
    forall i | 0 <= i < |once| ensures once[i].seconds >= minSeconds {
      assert once[i].seconds == LangSeconds(once)[i] == LangSeconds(kept)[i];
      assert kept[i] in kept;
    }
    KeepAtLeastAll(once, minSeconds);
    if reweight {
      assert LangSeconds(once) == LangSeconds(kept);
      assert Reweigh(once) == once;
    }
  }

  /** One line of a formatted list: `toPercent` is not modelled, so the percent stays a number. */
  datatype FormattedLang = FormattedLang(name: string, time: Option<string>, percent: real)

  /** `FormattedStatBundle`. */
  datatype FormattedBundle = FormattedBundle(
    timeframe: string,
    fetchedAt: Option<string>,
    dailyAverage: Option<string>,
    totalTime: Option<string>,
    topLanguages: seq<FormattedLang>,
    mostActiveDate: Option<string>,
    mostActiveTime: Option<string>,
    topProjects: seq<FormattedLang>,
    languagesUsed: seq<string>,
    languagesByUsage: seq<FormattedLang>)

  /** The filtered list, each entry shown with its formatted time. */
  function FormatList(xs: seq<LangAgg>, minSeconds: real, reweight: bool): (r: seq<FormattedLang>)
    ensures |r| <= |xs|
  {
    var kept := FilterLanguages(xs, minSeconds, reweight);
    seq(|kept|, i requires 0 <= i < |kept| =>
      FormattedLang(kept[i].name, FormattedTime(Some(kept[i].seconds)), kept[i].percent))
  }

  /** `formatBundlePretty`. */
  function FormatBundlePretty(b: Bundle, minSeconds: real, reweight: bool, localDateTime: string -> Option<string>): (r: FormattedBundle)
    ensures |r.topLanguages| <= |b.topLanguages|
    ensures |r.topProjects| <= |b.topProjects|
    ensures |r.languagesByUsage| <= |b.languagesByUsage|
  {
    FormattedBundle(
      TimeframeLabel(b.timeframe),
      localDateTime(b.fetchedAt),
      FormattedTime(b.dailyAverage.seconds),
      FormattedTime(b.totalTime.seconds),
      FormatList(b.topLanguages, minSeconds, reweight),
      ToShortDate(b.mostActiveDay.date),
      FormattedTime(b.mostActiveDay.seconds),
      FormatList(b.topProjects, minSeconds, reweight),
      b.languagesUsed,
      FormatList(b.languagesByUsage, minSeconds, reweight))
  }

  /**
    Every shown entry comes from an input entry with the same name and at
    least `minSeconds`; with a positive threshold every shown entry has a
    time, so the non-null assertion on `toFormattedTime` holds.
   */
  lemma FormatListEntries(xs: seq<LangAgg>, minSeconds: real, reweight: bool)
    ensures var r := FormatList(xs, minSeconds, reweight);
      forall i :: 0 <= i < |r| ==>
        && (exists x :: x in xs && x.name == r[i].name && x.seconds >= minSeconds)
        && (minSeconds > 0.0 ==> r[i].time.Some?)
  {
    var r := FormatList(xs, minSeconds, reweight);
    forall i | 0 <= i < |r|
      ensures exists x :: x in xs && x.name == r[i].name && x.seconds >= minSeconds
      ensures minSeconds > 0.0 ==> r[i].time.Some?
    {
      FormatListEntry(xs, minSeconds, reweight, i);
    }
    assert forall i :: 0 <= i < |r| ==>
      && (exists x :: x in xs && x.name == r[i].name && x.seconds >= minSeconds)
      && (minSeconds > 0.0 ==> r[i].time.Some?);
  }

  /** The `i`-th shown entry is the `i`-th kept entry, under its name and with its seconds. */
  lemma FormatListEntry(xs: seq<LangAgg>, minSeconds: real, reweight: bool, i: int)
    requires 0 <= i < |FormatList(xs, minSeconds, reweight)|
    ensures var r := FormatList(xs, minSeconds, reweight);
      var x := KeepAtLeast(xs, minSeconds)[i];
      && x in xs && x.name == r[i].name && x.seconds >= minSeconds
      && (minSeconds > 0.0 ==> r[i].time.Some?)
  {
    var kept := KeepAtLeast(xs, minSeconds);
    var shown := FilterLanguages(xs, minSeconds, reweight);
    var r := FormatList(xs, minSeconds, reweight);
    assert r[i].name == Names(shown)[i] == Names(kept)[i];
    assert shown[i].seconds == LangSeconds(shown)[i] == LangSeconds(kept)[i];
    assert kept[i] in kept;
  }

  /**
    With a threshold of zero or less, an entry with no time passes the
    filter and is shown without a time although the declared type promises
    a string.
   */
  lemma ZeroTimeShowsNoTime(x: LangAgg, minSeconds: real, reweight: bool)
    requires x.seconds == 0.0 && minSeconds <= 0.0
    ensures var r := FormatList([x], minSeconds, reweight);
      |r| == 1 && r[0].name == x.name && r[0].time == None
  {
    assert KeepAtLeast([x], minSeconds) == [x];
  }

  /** The label shown for the timeframe parses back to the same timeframe. */
  lemma FormattedTimeframeParses(b: Bundle, minSeconds: real, reweight: bool, localDateTime: string -> Option<string>)
    ensures ParseTimeframe(Some(FormatBundlePretty(b, minSeconds, reweight, localDateTime).timeframe)) == Some(b.timeframe)
  {
    LabelParsesBack(b.timeframe);
  }

  /** The list of language names is passed through untouched, and the totals agree with `toFormattedTime`. */
  lemma FormattedBundlePassThrough(b: Bundle, minSeconds: real, reweight: bool, localDateTime: string -> Option<string>)
    ensures var r := FormatBundlePretty(b, minSeconds, reweight, localDateTime);
      && r.languagesUsed == b.languagesUsed
      && (r.totalTime.None? <==> b.totalTime.seconds.None? || b.totalTime.seconds.value <= 0.0)
      && (r.dailyAverage.None? <==> b.dailyAverage.seconds.None? || b.dailyAverage.seconds.value <= 0.0)
      && (b.mostActiveDay.date.None? ==> r.mostActiveDate.None?)
  {
  }

  /** `v ? formatBundlePretty(v) : null`. */
  function FormatEntry(v: Option<Bundle>, minSeconds: real, reweight: bool,
                       localDateTime: string -> Option<string>): Option<FormattedBundle>
  {
    if v.Some? then Some(FormatBundlePretty(v.value, minSeconds, reweight, localDateTime)) else None
  }

  /**
    `formatMapPretty`: each `[timeframe, bundle]` entry, in order, becomes
    the formatted bundle, and a `null` bundle stays `null`. The entries of an
    object have distinct keys, so assigning `out[k]` in order appends.
   */
  method FormatMapPretty(m: seq<(Timeframe, Option<Bundle>)>, minSeconds: real, reweight: bool,
                         localDateTime: string -> Option<string>)
    returns (out: seq<(Timeframe, Option<FormattedBundle>)>)
    ensures |out| == |m|
    ensures forall i :: 0 <= i < |m| ==> out[i].0 == m[i].0
    ensures forall i :: 0 <= i < |m| ==> (out[i].1.None? <==> m[i].1.None?)
    ensures forall i :: 0 <= i < |m| && m[i].1.Some? ==>
      out[i].1.value == FormatBundlePretty(m[i].1.value, minSeconds, reweight, localDateTime)
  {
    out := [];
    for i := 0 to |m|
      invariant |out| == i
      invariant forall j :: 0 <= j < i ==> out[j] == (m[j].0, FormatEntry(m[j].1, minSeconds, reweight, localDateTime))
    {
      out := out + [(m[i].0, FormatEntry(m[i].1, minSeconds, reweight, localDateTime))];
    }
  }
}
