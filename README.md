# WakaFetch statistics core, modelled in Dafny

WakaFetch is a small service in front of the WakaTime API. For each of seven
reporting timeframes (`today`, `this_week`, `last_7_days`, `last_14_days`,
`this_month`, `this_year`, `all_time`) it fetches the user's coding activity
and folds it into a *normalized statistic bundle*:

- total time and daily average;
- the most active day;
- per-language and per-project totals with percentages, sorted largest first;
- the top five languages and projects;
- the list of languages used.

Bundles are kept in an in-memory cache with a hard time-to-live and a minimum
refresh age. Query strings are validated against the closed sets of timeframes
and statistic keys. A "pretty" view renders the bundles for people: a
title-case timeframe label, `1h 2m 3s` durations, `M/D/YY` dates, and language
lists filtered by a minimum number of seconds.

The Dafny model follows the source files, with `src/wakaClient.ts` split by concern into three modules (`Calendar`, `Aggregation`, `Stats`), and adds two helper modules (`Wrappers`, `Strings`):

| module | models |
|---|---|
| `Wrappers` | `Option`, for JavaScript's `null`/`undefined` |
| `Strings` | `String(n)`, `padStart`, `trim`, `toLowerCase`, `join` |
| `Types` | `src/types.ts`: timeframes, statistic keys, `parseTimeframe`, `parseStat`, the bundle |
| `Calendar` | the date helpers of `src/wakaClient.ts`: `ymd`, `startOfISOWeek`, `addDays`, and the `switch` choosing the request window |
| `Aggregation` | `agg` in `src/wakaClient.ts`: the name-keyed `Map`, percentages, the stable descending sort |
| `Stats` | `fetchStats` and `formatSeconds` in `src/wakaClient.ts` |
| `Cache` | `src/cache.ts`, as a class whose `store` map is updated in place |
| `FormatUtil` | `timeframeLabel`, `toFormattedTime`, `toShortDate` of `src/utils/formatUtil.ts` |
| `Format` | `filterLanguages`, `formatBundlePretty`, `formatMapPretty` of `src/formatting/format.ts` |

What upstream answers is an input to the model. `Stats.FetchStats` receives:

- the `data` of the `all_time` stats response;
- the `data` array of the summaries response, one `DayRecord` per day;
- the `fetchedAt` timestamp.

`Date.now()`, today's date, the cache thresholds, `MIN_LANG_SECONDS`,
`REWEIGHT_FILTERED_PERCENTS` and `toLocalDateTime` are parameters.

Modelling choices:

- Seconds and percents are `real`.
- `Math.round` is `Floor(x + 0.5)`.
- `Math.floor` is `.Floor`.
- JavaScript's `%` keeps the sign of its left operand, and is modelled that way (`Stats.JsRem`).
- A JavaScript `Map` keeps insertion order. It is modelled as an association list: a new key is appended, and an existing key keeps its place.
- `Array.prototype.sort` is stable. It is modelled as a stable insertion sort on `seconds`, largest first.
- Dates are civil `(year, month, day)` triples of the proleptic Gregorian calendar. Each has a day number, and the weekday is computed from it. `addDays` steps one day at a time, rolling over month and year ends as `setDate` does.

## Model

| member | source | states |
|---|---|---|
| Types.TimeframesComplete | src/types.ts:1-9 | `TIMEFRAMES` has seven entries, lists every timeframe, and has no duplicates |
| Types.TimeframeNameIsSnakeCase | src/types.ts:1-9 | every timeframe name is lower-case words of letters and digits joined by single underscores |
| Types.TimeframeFromName | src/types.ts:12 | the set lookup finds a timeframe exactly when the key is its wire name |
| Types.ParseTimeframe | src/types.ts:14-18 | missing or empty input gives null; otherwise the result is a timeframe exactly when the trimmed, lower-cased, separator-collapsed key is its name |
| Types.ParseCanonicalTimeframe | src/types.ts:14-18 | every name in `TIMEFRAMES` parses to its own timeframe |
| Types.NormalizeIdempotent | src/types.ts:16 | normalizing a key twice is the same as normalizing it once |
| Types.CollapseLeavesNoSeparator | src/types.ts:16 | after `replace(/[\s-]+/g, "_")` no whitespace or hyphen remains |
| Types.CollapseRun | src/types.ts:16 | a whole run of one or more separators before a non-separator becomes one `_` |
| Types.CollapseRunBetween | src/types.ts:16 | a run of one or more separators between a plain head and a non-separator tail becomes one `_` |
| Types.CollapseOneSeparator | src/types.ts:16 | one separator between a plain head and a non-separator tail becomes one `_` |
| Types.ParseIgnoresCase | src/types.ts:16 | strings that are equal up to letter case parse to the same result |
| Types.ParseIgnoresSurroundingSpace | src/types.ts:16 | leading and trailing whitespace never changes the result |
| Types.EmptyKeyParsesToNothing | src/types.ts:15-17 | an all-whitespace string parses to null |
| Types.ParseMixedSpelling | src/types.ts:16 | `" Last-7 Days"` parses to `last_7_days` |
| Types.ParseSameKey | src/types.ts:16-17 | two non-empty strings with the same normalized key parse alike |
| Types.StatFromName | src/types.ts:48 | `STAT_KEYS.includes(k)` finds a key exactly when `k` is its name |
| Types.ParseStat | src/types.ts:45-49 | missing or empty input gives null; otherwise the result is a key exactly when the trimmed, lower-cased input is its name |
| Types.ParseCanonicalStat | src/types.ts:45-49 | every name in `STAT_KEYS` parses to its own key |
| Types.ParseStatKeepsHyphen | src/types.ts:47-48 | hyphens are not rewritten: `top-languages` is rejected |
| Calendar.AddDays | src/wakaClient.ts:55-59 | adding days to a valid date gives a valid date |
| Calendar.AddDaysNumber | src/wakaClient.ts:55-59 | `addDays(d, n)` moves the day number by exactly `n`, across month and year ends |
| Calendar.NextDayNumber | src/wakaClient.ts:57 | rolling over to the next day advances the day number by one |
| Calendar.YearLength | src/wakaClient.ts:57 | a year spans as many day numbers as it has days, leap years included |
| Calendar.EpochIsThursday | src/wakaClient.ts:49 | the computed weekday agrees with `getDay` at 1 January 1970, a Thursday |
| Calendar.StartOfIsoWeek | src/wakaClient.ts:47-53 | the start of the ISO week is a valid date, a Monday, zero to six days before the date |
| Calendar.Ymd | src/wakaClient.ts:40-45 | for every year, `ymd` is `String(year)`, a dash, two digits that read back as the month, a dash, and two digits that read back as the day |
| Calendar.YmdRoundTrip | src/wakaClient.ts:40-45 | for a four-digit year, `ymd` is ten characters `YYYY-MM-DD` whose digit groups read back as year, month and day |
| Calendar.DateWindow | src/wakaClient.ts:101-129 | every window ends on valid dates |
| Calendar.WindowContainsToday | src/wakaClient.ts:101-129 | every window starts on or before today and ends on or after it |
| Calendar.ThisWeekWindow | src/wakaClient.ts:106-109 | `this_week` runs from the Monday of today's ISO week to six days after it |
| Calendar.TrailingWindow | src/wakaClient.ts:110-117 | `last_7_days` and `last_14_days` end today and start 6 or 13 days earlier |
| Calendar.ThisMonthWindow | src/wakaClient.ts:118-121 | `this_month` runs from the first to the last day of today's month |
| Calendar.ThisYearWindow | src/wakaClient.ts:122-125 | `this_year` runs from 1 January to 31 December of today's year |
| Calendar.SingleDayWindow | src/wakaClient.ts:102-105 | `today` and the `default` branch give the window from today to today |
| Calendar.SummariesQuery | src/wakaClient.ts:131-133 | the `start` and `end` parameters are the `ymd` text of the window's first and last days, which bracket today |
| Aggregation.SharesSum | src/wakaClient.ts:160-164 | shares of a total, with a zero total replaced by 1, add up to 100, or to 0 when the total is 0 |
| Aggregation.SetThenGet | src/wakaClient.ts:157 | after `map.set(k, v)`, `map.get(k)` is `v` and every other key reads as before |
| Aggregation.SetExisting | src/wakaClient.ts:157 | setting a present key replaces its value in place and leaves every other entry as it was |
| Aggregation.SetNew | src/wakaClient.ts:157 | setting an absent key appends it at the end |
| Aggregation.AccumulateGroups | src/wakaClient.ts:154-159 | the filled map has one entry per distinct name, in first-seen order, each holding that name's summed seconds |
| Aggregation.AccumulateTotal | src/wakaClient.ts:154-160 | the map's values add up to the sum of all items' seconds |
| Aggregation.PercentsAddUp | src/wakaClient.ts:160-164 | the percents add up to 100 when the summed seconds are non-zero, and to 0 otherwise |
| Aggregation.PercentsOfNothing | src/wakaClient.ts:160-164 | with non-negative seconds summing to 0, every percent is 0 |
| Aggregation.SortBySeconds | src/wakaClient.ts:165 | the sort is non-increasing in seconds and a permutation of its input |
| Aggregation.SortStable | src/wakaClient.ts:165 | entries with equal seconds keep their relative order |
| Aggregation.SortNoDup | src/wakaClient.ts:165 | sorting keeps the names distinct |
| Aggregation.SortTies | src/wakaClient.ts:165 | when the input is strictly increasing in some ranking of names, entries with equal seconds come out in that ranking's order |
| Aggregation.SortPercentSum | src/wakaClient.ts:165 | sorting does not change the sum of the percents |
| Aggregation.Agg | src/wakaClient.ts:153-166 | `agg`: sorted largest first; distinct names; exactly the names seen; seconds are each name's sum; percent is `seconds / (total \|\| 1) * 100` |
| Aggregation.AggPercentSum | src/wakaClient.ts:160-165 | the percents of `agg` add up to 100, or to 0 when nothing has any time |
| Aggregation.AggPercentsOfNothing | src/wakaClient.ts:160-165 | with non-negative seconds and nothing that has any time, every percent of `agg` is 0 |
| Aggregation.AggTieOrder | src/wakaClient.ts:161-165 | names with equal seconds appear in the order they were first seen |
| Stats.FormatSeconds | src/wakaClient.ts:61-65 | for non-negative seconds the text is `<h> hrs <m> mins`, and its two numbers read back as the whole hours and the minutes past them |
| Stats.HoursMinutes | src/wakaClient.ts:61-65 | for non-negative seconds, `m < 60` and `3600h + 60m` is the largest whole minute not above the seconds |
| Stats.TotalSecondsAppend | src/wakaClient.ts:138 | the total over two runs of days is the sum of their totals; a missing total counts 0 |
| Stats.Round | src/wakaClient.ts:140 | `Math.round` is within one half of its argument |
| Stats.DayCount | src/wakaClient.ts:139 | `days.length \|\| 1` is at least 1 and is the length for a non-empty list |
| Stats.DailyAverageBounds | src/wakaClient.ts:138-140 | no records give 0; otherwise average × days is within half a second per day of the total |
| Stats.MostActiveIndex | src/wakaClient.ts:143-150 | the chosen day has the most seconds, and every earlier day has strictly fewer |
| Stats.MostActiveUnique | src/wakaClient.ts:146 | only one day has the most seconds with strictly fewer before it |
| Stats.MostActiveDay | src/wakaClient.ts:143-150 | the loop result has the seconds and date of the earliest day with the most seconds; seconds are null exactly when there are no records |
| Stats.AddItems | src/wakaClient.ts:156-158 | the inner loop adds one day's items to the map as the specification fold does |
| Stats.AggregateSeconds | src/wakaClient.ts:154-159 | the nested loops leave one entry per distinct name with its summed seconds, in first-seen order |
| Stats.TopFiveIsTop | src/wakaClient.ts:177-179 | `slice(0, 5)` of a sorted list is its first `min(5, n)` entries, none beaten by an entry left out |
| Stats.SummariesBundle | src/wakaClient.ts:136-182 | the step-by-step range computation yields the specified range bundle |
| Stats.FetchStats | src/wakaClient.ts:76-182 | `all_time` yields the all-time bundle; every other timeframe yields the range bundle of its days |
| Stats.AllTimeBundle | src/wakaClient.ts:77-94 | `all_time` has empty lists and an all-null most active day; it copies the two numbers, with text exactly when each is present |
| Stats.RangeBundle | src/wakaClient.ts:137-181 | total time is the sum of day totals, text absent exactly when 0; average present, 0 without records; most active day null exactly without records; by-usage list is `agg`; `languages_used` is its names, distinct, exactly the names seen; seconds are per-name sums; top lists are five-entry prefixes |
| Cache.TimeframeCache.constructor | src/cache.ts:4-10 | the store starts empty with the two given thresholds |
| Cache.TimeframeCache.Lookup | src/cache.ts:12-14 | `getFromCache` returns the stored entry exactly when one is present |
| Cache.TimeframeCache.SetCache | src/cache.ts:24-26 | the entry becomes `{value, updatedAt: now}` and every other timeframe's entry is unchanged |
| Cache.TimeframeCache.DumpAll | src/cache.ts:28-32 | seven entries in `TIMEFRAMES` order, each the stored value or null when absent |
| Cache.TimeframeCache.AbsentIsDue | src/cache.ts:20-22 | an absent entry is always due for a refresh |
| Cache.TimeframeCache.FreshEntryIsCurrent | src/cache.ts:16-22 | with non-negative thresholds, an entry written at `now` is neither stale nor due at `now` |
| Cache.TimeframeCache.StaleIsDue | src/cache.ts:9-22 | when the time-to-live is at least the refresh age, as the defaults are, a stale entry is also due |
| Cache.TimeframeCache.StaleStaysStale | src/cache.ts:16-18 | `isStale` never turns false again as `Date.now()` grows |
| Cache.TimeframeCache.DueStaysDue | src/cache.ts:20-22 | a due entry stays due as time goes on; an entry not due is present and younger than the refresh age |
| Cache.TimeframeCache.DumpAfterSet | src/cache.ts:24-31 | after `setCache` the dump shows the new value under its timeframe and the old contents elsewhere |
| FormatUtil.UnderscoresToSpaces | src/utils/formatUtil.ts:16 | the same length, no `_` left, and each character is either kept or an `_` turned into a space |
| FormatUtil.CapitalizeWords | src/utils/formatUtil.ts:16 | only the case changes (the lower-cased result is the lower-cased input), no `\b\w` position holds a lower-case letter, and every other character is kept |
| FormatUtil.TimeframeLabel | src/utils/formatUtil.ts:15-17 | the label is the wire name with spaces for underscores up to case, has no `_`, and starts with a capital letter |
| FormatUtil.LabelNormalizesBack | src/utils/formatUtil.ts:15-17 | a snake-case key's label normalizes back to the key |
| FormatUtil.LabelParsesBack | src/utils/formatUtil.ts:15-17 | the label of a timeframe, given as a query string, parses to the same timeframe |
| FormatUtil.LabelShape | src/utils/formatUtil.ts:15-17 | labels have no underscores and start with a capital letter |
| FormatUtil.ClockOf | src/utils/formatUtil.ts:21-24 | `h*3600 + m*60 + s` is the whole number of seconds, with `m < 60` and `s < 60` |
| FormatUtil.ClockParts | src/utils/formatUtil.ts:25-29 | hours appear iff `h > 0`, minutes iff `m > 0 \|\| h > 0`, seconds always, in h-m-s order |
| FormatUtil.FormattedTime | src/utils/formatUtil.ts:19-20 | null exactly for a missing, zero or negative input |
| FormatUtil.ToFormattedTime | src/utils/formatUtil.ts:19-30 | pushing the parts one by one yields the specified rendering |
| FormatUtil.FormattedTimeClock | src/utils/formatUtil.ts:20-24 | a positive input is rendered, and its clock recombines to its whole seconds |
| FormatUtil.BeforeT | src/utils/formatUtil.ts:45 | `split("T")[0]` is the longest prefix without a `T`, followed by a `T` or the end |
| FormatUtil.ToShortDate | src/utils/formatUtil.ts:43-51 | null for missing or empty input; the input itself when the date part is not `YYYY-MM-DD` |
| FormatUtil.ShortDateOfYmd | src/utils/formatUtil.ts:43-51 | a `ymd` date, bare or followed by `T...`, becomes month/day without leading zeros and the year's last two digits |
| FormatUtil.TwoDigitYear | src/utils/formatUtil.ts:49 | `y.slice(2)` of a four-digit year is the year modulo 100, zero-padded |
| Format.KeepAtLeast | src/formatting/format.ts:15 | the filter never lengthens the list and keeps only input entries with enough seconds |
| Format.KeepAtLeastMembers | src/formatting/format.ts:15 | an entry is kept exactly when it is in the input with at least the minimum seconds |
| Format.KeepAtLeastAppend | src/formatting/format.ts:15 | filtering a concatenation filters each part and keeps their relative order |
| Format.KeepAtLeastAll | src/formatting/format.ts:15 | when every entry has enough seconds, nothing is dropped |
| Format.KeepAtLeastIdempotent | src/formatting/format.ts:15 | filtering twice is filtering once |
| Format.FilterLanguages | src/formatting/format.ts:14-20 | names and seconds are those of the kept entries; without reweighting the kept entries are returned unmodified |
| Format.ReweighedPercentsAddUp | src/formatting/format.ts:18-19 | reweighted percents add up to 100, or to 0 when the kept entries have no time |
| Format.FilterIdempotent | src/formatting/format.ts:14-20 | filtering an already-filtered list changes nothing, with or without reweighting |
| Format.FormatBundlePretty | src/formatting/format.ts:34-67 | no formatted list is longer than the list it came from |
| Format.FormatListEntries | src/formatting/format.ts:35-51 | each shown entry names an input entry with at least the minimum seconds; with a positive minimum each has a time |
| Format.ZeroTimeShowsNoTime | src/formatting/format.ts:35-39 | with a minimum of zero or less, an entry with no time is shown with a null time |
| Format.FormattedTimeframeParses | src/formatting/format.ts:54 | the shown timeframe label parses back to the bundle's timeframe |
| Format.FormattedBundlePassThrough | src/formatting/format.ts:56-64 | `languages_used` passes through; totals are null exactly when missing or not positive; a null date stays null |
| Format.FormatMapPretty | src/formatting/format.ts:69-75 | same keys in the same order; a null bundle stays null and every other bundle is formatted |

## Left out

- `fetchJSON` is not modelled: network I/O, timeouts, retries with back-off, the `Authorization` and `User-Agent` headers, and a body that fails to parse. The parsed `data` is an input to `Stats.FetchStats`.
- A missing `data`, `languages` or `projects` array is given as the empty sequence, which is what `?? []` reads it as. A missing `grand_total.total_seconds` or `range.date` is an `Option`.
- The `inflight` registry in `src/app/routes.ts`, the Express routes, and both server files are not modelled. They coalesce concurrent requests and carry HTTP plumbing, which a sequential model cannot state.
- `src/formatting/formatters.ts` is not part of this model. It holds thin wrappers and dynamic-key picks.
- `toLocalDateTime` depends on `Intl` time-zone formatting, so it is the `localDateTime` parameter of `Format.FormatBundlePretty`.
- `toPercent` renders a float with `toFixed`, so `Format.FormattedLang` keeps the percent as a number.
- Environment variables are parameters: `CACHE_TTL_HOURS` and `REFRESH_MIN_AGE_MINUTES` (constructor arguments in milliseconds; `Cache.DefaultTtl` and `Cache.DefaultMinRefresh` give the defaults), `MIN_LANG_SECONDS` and `REWEIGHT_FILTERED_PERCENTS`. `Date.now()`, `new Date()` and `toISOString()` are parameters too.
- Floating point: seconds and percents are exact reals, so the sums of percents are exact rather than IEEE-rounded. `NaN` and infinities are not modelled.
- Time of day and time zones: `setHours` on the window ends is not modelled. The request carries only `ymd` of each end, and dates are calendar days.
- Calendar.YmdRoundTrip: states the ten-character `YYYY-MM-DD` layout only for four-digit years, because `String(y)` of other years has a different length. `Calendar.Ymd` states the layout for every year.
- Stats.FormatSeconds: the text is stated for non-negative seconds only. Every value the bundles pass to it is a sum or an average of upstream durations.
- FormatUtil.ShortDateOfYmd: covers dates that `ymd` writes with a four-digit year. For any other input, `FormatUtil.ToShortDate` states only the null and unchanged cases.
- Types.ParseTimeframe: `toLowerCase` is modelled on ASCII letters only, so this member, `Types.ParseStat` and `Types.ParseIgnoresCase` describe ASCII case only. JavaScript lower-cases some non-ASCII letters to ASCII ones: U+212A KELVIN SIGN becomes `k`, so `parseTimeframe("THIS_WEE\u212A")` returns `this_week` in the source while `Types.ParseTimeframe` returns `None`. Such inputs are not modelled, because full Unicode case mapping is not.
- The bundle's `source: {}` field is always empty and is not carried.
- Format.FormatMapPretty: the input is the ordered entry list of an object. Its keys are distinct, so assigning `out[k]` in turn is modelled as appending.
- Stats.MostActiveDay: `madSecs === null` is the `Option` being `None`. The loop's ghost index of the chosen day is a proof device.
