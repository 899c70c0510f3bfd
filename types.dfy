/**
  The closed enumerations of the service (the seven reporting timeframes and
  the seven selectable statistics), the validation of query strings against
  them, and the shape of a normalized statistics bundle.
 */
module Types {
  import opened Wrappers
  import opened Strings

  // ---------------------------------------------------------------------------
  // Timeframes
  // ---------------------------------------------------------------------------

  datatype Timeframe =
    | Today | ThisWeek | Last7Days | Last14Days | ThisMonth | ThisYear | AllTime

  /** The wire name of each timeframe. */
  function TimeframeName(tf: Timeframe): string {
    match tf
    case Today => "today"
    case ThisWeek => "this_week"
    case Last7Days => "last_7_days"
    case Last14Days => "last_14_days"
    case ThisMonth => "this_month"
    case ThisYear => "this_year"
    case AllTime => "all_time"
  }

  /** `TIMEFRAMES`, in declaration order. */
  const Timeframes: seq<Timeframe> :=
    [Today, ThisWeek, Last7Days, Last14Days, ThisMonth, ThisYear, AllTime]

  /** `TIMEFRAMES` lists every timeframe exactly once. */
  lemma TimeframesComplete()
    ensures |Timeframes| == 7
    ensures forall tf :: tf in Timeframes
    ensures forall i, j :: 0 <= i < j < |Timeframes| ==> Timeframes[i] != Timeframes[j]
  {
    forall tf ensures tf in Timeframes {
      match tf
      case Today => assert Timeframes[0] == tf;
      case ThisWeek => assert Timeframes[1] == tf;
      case Last7Days => assert Timeframes[2] == tf;
      case Last14Days => assert Timeframes[3] == tf;
      case ThisMonth => assert Timeframes[4] == tf;
      case ThisYear => assert Timeframes[5] == tf;
      case AllTime => assert Timeframes[6] == tf;
    }
  }

  /** `TIMEFRAME_SET.has(key)`: the timeframe whose wire name is `key`, if any. */
  function TimeframeFromName(key: string): (r: Option<Timeframe>)
    ensures forall tf :: r == Some(tf) <==> TimeframeName(tf) == key
  {
    if key == "today" then Some(Today)
    else if key == "this_week" then Some(ThisWeek)
    else if key == "last_7_days" then Some(Last7Days)
    else if key == "last_14_days" then Some(Last14Days)
    else if key == "this_month" then Some(ThisMonth)
    else if key == "this_year" then Some(ThisYear)
    else if key == "all_time" then Some(AllTime)
    else None
  }

  // ---------------------------------------------------------------------------
  // Normalizing a query string
  // ---------------------------------------------------------------------------

  /** A character of the class `[\s-]`. */
  predicate IsSeparator(c: char) {
    IsSpace(c) || c == '-'
  }

  predicate NoSeparator(s: string) {
    forall i :: 0 <= i < |s| ==> !IsSeparator(s[i])
  }

  /** Drops the leading run of separators. */
  function DropSeparators(s: string): (r: string)
    ensures |r| <= |s| && r == s[|s| - |r|..]
    ensures r == [] || !IsSeparator(r[0])
  {
    if s != [] && IsSeparator(s[0]) then DropSeparators(s[1..]) else s
  }

  /** `s.replace(/[\s-]+/g, "_")`: every maximal run of separators becomes one `_`. */
  function CollapseSeparators(s: string): string
    decreases |s|
  {
    if s == [] then []
    else if IsSeparator(s[0]) then "_" + CollapseSeparators(DropSeparators(s[1..]))
    else [s[0]] + CollapseSeparators(s[1..])
  }

  /** `input.trim().toLowerCase().replace(/[\s-]+/g, "_")`. */
  function NormalizeKey(s: string): string {
    CollapseSeparators(Lower(Trim(s)))
  }

  /** `parseTimeframe`: a missing or empty query string is no timeframe. */
  function ParseTimeframe(input: Option<string>): (r: Option<Timeframe>)
    ensures input == None || input == Some("") ==> r == None
    ensures forall tf :: r == Some(tf) <==>
      input.Some? && input.value != "" && NormalizeKey(input.value) == TimeframeName(tf)
  {
    if input == None || input.value == "" then None
    else TimeframeFromName(NormalizeKey(input.value))
  }

  // ---------------------------------------------------------------------------
  // What parsing a timeframe promises
  // ---------------------------------------------------------------------------

  /** A string free of separators and capitals is left alone by normalization. */
  lemma NormalizeFixesPlainKey(s: string)
    requires NoSeparator(s) && NoUpper(s)
    ensures NormalizeKey(s) == s
  {
    assert TrimStart(s) == s;
    assert TrimEnd(s) == s;
    assert Lower(s) == s;
    CollapseFixesPlain(s);
  }

  lemma {:induction false} CollapseFixesPlain(s: string)
    requires NoSeparator(s)
    ensures CollapseSeparators(s) == s
    decreases |s|
  {
    if s != [] {
      CollapseFixesPlain(s[1..]);
    }
  }

  /** Collapsing leaves no separator behind. */
  lemma {:induction false} CollapseLeavesNoSeparator(s: string)
    ensures NoSeparator(CollapseSeparators(s))
    decreases |s|
  {
    if s == [] {
    } else if IsSeparator(s[0]) {
      CollapseLeavesNoSeparator(DropSeparators(s[1..]));
    } else {
      CollapseLeavesNoSeparator(s[1..]);
    }
  }

  lemma NoUpperTail(s: string)
    requires s != [] && NoUpper(s)
    ensures NoUpper(s[1..])
  {
    forall i | 0 <= i < |s| - 1 ensures !IsUpper(s[1..][i]) {
      assert s[1..][i] == s[i + 1];
    }
  }

  lemma {:induction false} DropKeepsNoUpper(s: string)
    requires NoUpper(s)
    ensures NoUpper(DropSeparators(s))
    decreases |s|
  {
    if s != [] && IsSeparator(s[0]) {
      NoUpperTail(s);
      DropKeepsNoUpper(s[1..]);
    }
  }

  /** Collapsing introduces no capital letter. */
  lemma {:induction false} CollapseKeepsNoUpper(s: string)
    requires NoUpper(s)
    ensures NoUpper(CollapseSeparators(s))
    decreases |s|
  {
    if s != [] {
      NoUpperTail(s);
      if IsSeparator(s[0]) {
        DropKeepsNoUpper(s[1..]);
        CollapseKeepsNoUpper(DropSeparators(s[1..]));
      } else {
        CollapseKeepsNoUpper(s[1..]);
      }
    }
  }

  /** Normalizing twice is normalizing once. */
  lemma NormalizeIdempotent(s: string)
    ensures NormalizeKey(NormalizeKey(s)) == NormalizeKey(s)
  {
    var lowered := Lower(Trim(s));
    assert NoUpper(lowered);
    CollapseLeavesNoSeparator(lowered);
    CollapseKeepsNoUpper(lowered);
    NormalizeFixesPlainKey(NormalizeKey(s));
  }

  /** Every name of `TIMEFRAMES` parses to its own timeframe. */
  lemma ParseCanonicalTimeframe(tf: Timeframe)
    ensures ParseTimeframe(Some(TimeframeName(tf))) == Some(tf)
  {
    var name := TimeframeName(tf);
    TimeframeNameIsSnakeCase(tf);
    IdentifierIsPlain(name);
    NormalizeFixesPlainKey(name);
    ParseFixedName(name, tf);
  }

  /** Positions `i` and `i + 1` of `s` both hold `_`. */
  predicate DoubleUnderscoreAt(s: string, i: int) {
    0 <= i < |s| - 1 && s[i] == '_' && s[i + 1] == '_'
  }

  /**
    Lower-case words of letters and digits joined by single underscores, the
    shape of every `TIMEFRAMES` name.
   */
  predicate IsSnakeCase(s: string) {
    && s != []
    && IsIdentifier(s)
    && s[0] != '_' && s[|s| - 1] != '_'
    && forall i :: 0 <= i < |s| ==> !DoubleUnderscoreAt(s, i)
  }

  /** Every timeframe name is in snake case. */
  lemma TimeframeNameIsSnakeCase(tf: Timeframe)
    ensures IsSnakeCase(TimeframeName(tf))
  {
    match tf
    case Today => SnakeCaseToday();
    case ThisWeek => SnakeCaseThisWeek();
    case Last7Days => SnakeCaseLast7Days();
    case Last14Days => SnakeCaseLast14Days();
    case ThisMonth => SnakeCaseThisMonth();
    case ThisYear => SnakeCaseThisYear();
    case AllTime => SnakeCaseAllTime();
  }

  // One name per lemma keeps each character-by-character check small.
  lemma SnakeCaseToday() ensures IsSnakeCase("today") {}
  lemma SnakeCaseThisWeek() ensures IsSnakeCase("this_week") {}
  lemma SnakeCaseLast7Days() ensures IsSnakeCase("last_7_days") {}
  lemma SnakeCaseLast14Days() ensures IsSnakeCase("last_14_days") {}
  lemma SnakeCaseThisMonth() ensures IsSnakeCase("this_month") {}
  lemma SnakeCaseThisYear() ensures IsSnakeCase("this_year") {}
  lemma SnakeCaseAllTime() ensures IsSnakeCase("all_time") {}

  lemma ParseFixedName(name: string, tf: Timeframe)
    requires name == TimeframeName(tf) && NormalizeKey(name) == name
    ensures ParseTimeframe(Some(name)) == Some(tf)
  {
    assert name != "";
  }

  lemma {:induction false} TrimStartLower(s: string)
    ensures TrimStart(Lower(s)) == Lower(TrimStart(s))
    decreases |s|
  {
    if s != [] {
      LowerKeepsSpace(s[0]);
      if IsSpace(s[0]) {
        assert Lower(s)[1..] == Lower(s[1..]);
        TrimStartLower(s[1..]);
      }
    }
  }

  lemma {:induction false} TrimEndLower(s: string)
    ensures TrimEnd(Lower(s)) == Lower(TrimEnd(s))
    decreases |s|
  {
    if s != [] {
      LowerKeepsSpace(s[|s| - 1]);
      if IsSpace(s[|s| - 1]) {
        assert Lower(s)[..|s| - 1] == Lower(s[..|s| - 1]);
        TrimEndLower(s[..|s| - 1]);
      }
    }
  }

  /** Parsing ignores letter case: strings equal up to case parse alike. */
  lemma ParseIgnoresCase(s: string, t: string)
    requires Lower(s) == Lower(t)
    ensures ParseTimeframe(Some(s)) == ParseTimeframe(Some(t))
  {
    TrimStartLower(s); TrimEndLower(TrimStart(s));
    TrimStartLower(t); TrimEndLower(TrimStart(t));
    assert NormalizeKey(s) == NormalizeKey(t);
    if s != "" {
      ParseSameKey(s, t);
    }
  }

  lemma {:induction false} TrimStartAllSpace(s: string)
    requires AllSpace(s)
    ensures TrimStart(s) == []
    decreases |s|
  {
    if s != [] {
      TrimStartAllSpace(s[1..]);
    }
  }

  lemma {:induction false} TrimStartPadded(pre: string, s: string)
    requires AllSpace(pre)
    ensures TrimStart(pre + s) == TrimStart(s)
    decreases |pre|
  {
    if pre != [] {
      assert (pre + s)[1..] == pre[1..] + s;
      TrimStartPadded(pre[1..], s);
    } else {
      assert pre + s == s;
    }
  }

  lemma {:induction false} TrimEndPadded(s: string, post: string)
    requires AllSpace(post)
    ensures TrimEnd(s + post) == TrimEnd(s)
    decreases |post|
  {
    if post != [] {
      assert (s + post)[..|s + post| - 1] == s + post[..|post| - 1];
      TrimEndPadded(s, post[..|post| - 1]);
    } else {
      assert s + post == s;
    }
  }

  lemma {:induction false} TrimStartAppend(s: string, post: string)
    requires AllSpace(post)
    ensures TrimStart(s + post) == if AllSpace(s) then [] else TrimStart(s) + post
    decreases |s|
  {
    if s == [] {
      assert s + post == post;
      TrimStartAllSpace(post);
    } else if IsSpace(s[0]) {
      assert (s + post)[1..] == s[1..] + post;
      AllSpaceCons(s);
      TrimStartAppend(s[1..], post);
    } else {
      assert (s + post)[0] == s[0];
    }
  }

  lemma AllSpaceCons(s: string)
    requires s != [] && IsSpace(s[0])
    ensures AllSpace(s) == AllSpace(s[1..])
  {
    if AllSpace(s[1..]) {
      forall i | 0 < i < |s| ensures IsSpace(s[i]) {
        assert s[i] == s[1..][i - 1];
      }
    }
  }

  lemma TrimPadded(pre: string, s: string, post: string)
    requires AllSpace(pre) && AllSpace(post)
    ensures Trim(pre + s + post) == Trim(s)
  {
    var x := s + post;
    assert pre + s + post == pre + x;
    TrimPrefixSpace(pre, x);
    assert Trim(pre + s + post) == Trim(x);
    TrimAppendedSpace(s, post);
  }

  lemma TrimPrefixSpace(pre: string, x: string)
    requires AllSpace(pre)
    ensures Trim(pre + x) == Trim(x)
  {
    TrimStartPadded(pre, x);
  }

  lemma TrimAppendedSpace(s: string, post: string)
    requires AllSpace(post)
    ensures Trim(s + post) == Trim(s)
  {
    TrimStartAppend(s, post);
    if AllSpace(s) {
      TrimStartAllSpace(s);
    } else {
      TrimEndPadded(TrimStart(s), post);
    }
  }

  /** Whitespace around a query string does not change what it parses to. */
  lemma ParseIgnoresSurroundingSpace(pre: string, s: string, post: string)
    requires AllSpace(pre) && AllSpace(post)
    ensures ParseTimeframe(Some(pre + s + post)) == ParseTimeframe(Some(s))
  {
    var padded := pre + s + post;
    TrimPadded(pre, s, post);
    assert NormalizeKey(padded) == NormalizeKey(s);
    if s != "" {
      ParseSameKey(padded, s);
    } else if padded != "" {
      EmptyKeyParsesToNothing(padded);
    }
  }

  lemma EmptyKeyParsesToNothing(x: string)
    requires Trim(x) == ""
    ensures ParseTimeframe(Some(x)) == None
  {
    assert Lower(Trim(x)) == [];
    assert NormalizeKey(x) == [];
  }

  /** A worked case: capitals, padding, a hyphen and a space all normalize away. */
  lemma ParseMixedSpelling(raw: string)
    requires raw == " Last-7 Days"
    ensures ParseTimeframe(Some(raw)) == Some(Last7Days)
  {
    var trimmed := TrimmedMixedSpelling(raw);
    var lowered := LoweredMixedSpelling(trimmed);
    CollapsedMixedSpelling(lowered);
  }

  lemma TrimmedMixedSpelling(raw: string) returns (trimmed: string)
    requires raw == " Last-7 Days"
    ensures trimmed == Trim(raw) && trimmed == "Last-7 Days"
  {
    trimmed := raw[1..];
    assert trimmed == "Last-7 Days" && IsSpace(raw[0]);
    assert trimmed[0] == 'L' && trimmed[|trimmed| - 1] == 's';
    TrimDropsOneSpace(raw);
  }

  /** One leading space before text with non-space ends is all that `trim` removes. */
  lemma TrimDropsOneSpace(s: string)
    requires |s| >= 2 && IsSpace(s[0]) && !IsSpace(s[1]) && !IsSpace(s[|s| - 1])
    ensures Trim(s) == s[1..]
  {
    assert TrimStart(s[1..]) == s[1..];
  }

  lemma LoweredMixedSpelling(trimmed: string) returns (lowered: string)
    requires trimmed == "Last-7 Days"
    ensures lowered == Lower(trimmed) && lowered == "last-7 days"
  {
    lowered := Lower(trimmed);
  }

  lemma CollapsedMixedSpelling(lowered: string)
    requires lowered == "last-7 days"
    ensures CollapseSeparators(lowered) == "last_7_days"
  {
    assert lowered == "last" + ['-'] + "7" + [' '] + "days";
    assert NoSeparator("last") && NoSeparator("7") && NoSeparator("days");
    CollapseTwoSeparators("last", '-', "7", ' ', "days");
    assert "last" + "_" + "7" + "_" + "days" == "last_7_days";
  }

  /** Three plain words split by single separators are joined by `_`. */
  lemma CollapseTwoSeparators(a: string, s1: char, b: string, s2: char, c: string)
    requires NoSeparator(a) && NoSeparator(b) && NoSeparator(c)
    requires b != [] && c != [] && IsSeparator(s1) && IsSeparator(s2)
    ensures CollapseSeparators(a + [s1] + b + [s2] + c) == a + "_" + b + "_" + c
  {
    CollapseFixesPlain(c);
    CollapseOneSeparator(b, s2, c);
    assert a + [s1] + b + [s2] + c == a + [s1] + (b + [s2] + c);
    CollapseOneSeparator(a, s1, b + [s2] + c);
  }

  /** One separator between a plain head and a tail becomes one `_`. */
  lemma CollapseOneSeparator(head: string, sep: char, tail: string)
    requires NoSeparator(head) && IsSeparator(sep)
    requires tail == [] || !IsSeparator(tail[0])
    ensures CollapseSeparators(head + [sep] + tail) == head + "_" + CollapseSeparators(tail)
  {
    CollapseRunBetween(head, [sep], tail);
  }

  predicate AllSeparators(run: string) {
    forall i :: 0 <= i < |run| ==> IsSeparator(run[i])
  }

  /** A whole run of separators before a non-separator becomes one `_`. */
  lemma CollapseRun(run: string, tail: string)
    requires run != [] && AllSeparators(run)
    requires tail == [] || !IsSeparator(tail[0])
    ensures CollapseSeparators(run + tail) == "_" + CollapseSeparators(tail)
  {
    var s := run + tail;
    assert s[0] == run[0] && s[1..] == run[1..] + tail;
    DropRun(run[1..], tail);
  }

  /** Dropping the leading separators skips exactly the run. */
  lemma {:induction false} DropRun(run: string, tail: string)
    requires AllSeparators(run)
    requires tail == [] || !IsSeparator(tail[0])
    ensures DropSeparators(run + tail) == tail
    decreases |run|
  {
    if run == [] {
      assert run + tail == tail;
    } else {
      assert (run + tail)[0] == run[0];
      assert (run + tail)[1..] == run[1..] + tail;
      DropRun(run[1..], tail);
    }
  }

  /**
    A run of one or more separators between a plain head and a tail that does
    not start with a separator becomes a single `_`.
   */
  lemma CollapseRunBetween(head: string, run: string, tail: string)
    requires NoSeparator(head) && run != [] && AllSeparators(run)
    requires tail == [] || !IsSeparator(tail[0])
    ensures CollapseSeparators(head + run + tail) == head + "_" + CollapseSeparators(tail)
  {
    assert head + run + tail == head + (run + tail);
    CollapseConcatPlain(head, run + tail);
    CollapseRun(run, tail);
    AppendAssoc(head, "_", CollapseSeparators(tail));
  }

  lemma AppendAssoc(a: string, b: string, c: string)
    ensures a + (b + c) == a + b + c
  {
  }

  /** Parsing depends only on the normalized key of a non-empty string. */
  lemma ParseSameKey(s: string, t: string)
    requires s != "" && t != "" && NormalizeKey(s) == NormalizeKey(t)
    ensures ParseTimeframe(Some(s)) == ParseTimeframe(Some(t))
  {
  }

  /** A separator-free head passes through collapsing unchanged. */
  lemma {:induction false} CollapseConcatPlain(a: string, b: string)
    requires NoSeparator(a)
    ensures CollapseSeparators(a + b) == a + CollapseSeparators(b)
    decreases |a|
  {
    if a == [] {
      assert a + b == b;
    } else {
      assert (a + b)[1..] == a[1..] + b;
      CollapseConcatPlain(a[1..], b);
    }
  }

  // ---------------------------------------------------------------------------
  // Statistic keys
  // ---------------------------------------------------------------------------

  datatype StatKey =
    | DailyAverage | TotalTime | TopLanguages | MostActiveDay | TopProjects
    | LanguagesUsed | LanguagesByUsage

  function StatName(k: StatKey): string {
    match k
    case DailyAverage => "daily_average"
    case TotalTime => "total_time"
    case TopLanguages => "top_languages"
    case MostActiveDay => "most_active_day"
    case TopProjects => "top_projects"
    case LanguagesUsed => "languages_used"
    case LanguagesByUsage => "languages_by_usage"
  }

  /** `STAT_KEYS.includes(k)`: the statistic whose name is `k`, if any. */
  function StatFromName(k: string): (r: Option<StatKey>)
    ensures forall key :: r == Some(key) <==> StatName(key) == k
  {
    if k == "daily_average" then Some(DailyAverage)
    else if k == "total_time" then Some(TotalTime)
    else if k == "top_languages" then Some(TopLanguages)
    else if k == "most_active_day" then Some(MostActiveDay)
    else if k == "top_projects" then Some(TopProjects)
    else if k == "languages_used" then Some(LanguagesUsed)
    else if k == "languages_by_usage" then Some(LanguagesByUsage)
    else None
  }

  /** `parseStat`: trimmed and lower-cased, but separators are not rewritten. */
  function ParseStat(input: Option<string>): (r: Option<StatKey>)
    ensures input == None || input == Some("") ==> r == None
    ensures forall k :: r == Some(k) <==>
      input.Some? && input.value != "" && Lower(Trim(input.value)) == StatName(k)
  {
    if input == None || input.value == "" then None
    else StatFromName(Lower(Trim(input.value)))
  }

  /** Every name of `STAT_KEYS` parses to its own statistic. */
  lemma ParseCanonicalStat(k: StatKey)
    ensures ParseStat(Some(StatName(k))) == Some(k)
  {
    var name := StatName(k);
    StatNameIsPlain(k);
    PlainSurvivesTrimLower(name);
    ParseFixedStat(name, k);
  }

  lemma StatNameIsPlain(k: StatKey)
    ensures NoSeparator(StatName(k)) && NoUpper(StatName(k))
  {
    assert IsIdentifier(StatName(k)) by {
      StatNameIsIdentifier(k);
    }
    IdentifierIsPlain(StatName(k));
  }

  /** Lower-case letters, digits and underscores. */
  predicate IsIdentifier(s: string) {
    forall i :: 0 <= i < |s| ==> IsLower(s[i]) || IsDigit(s[i]) || s[i] == '_'
  }

  lemma IdentifierIsPlain(s: string)
    requires IsIdentifier(s)
    ensures NoSeparator(s) && NoUpper(s)
  {
  }

  lemma StatNameIsIdentifier(k: StatKey)
    ensures IsIdentifier(StatName(k))
  {
    match k
    case DailyAverage => IdentifierDailyAverage();
    case TotalTime => IdentifierTotalTime();
    case TopLanguages => IdentifierTopLanguages();
    case MostActiveDay => IdentifierMostActiveDay();
    case TopProjects => IdentifierTopProjects();
    case LanguagesUsed => IdentifierLanguagesUsed();
    case LanguagesByUsage => IdentifierLanguagesByUsage();
  }

  lemma IdentifierDailyAverage() ensures IsIdentifier("daily_average") {}
  lemma IdentifierTotalTime() ensures IsIdentifier("total_time") {}
  lemma IdentifierTopLanguages() ensures IsIdentifier("top_languages") {}
  lemma IdentifierMostActiveDay() ensures IsIdentifier("most_active_day") {}
  lemma IdentifierTopProjects() ensures IsIdentifier("top_projects") {}
  lemma IdentifierLanguagesUsed() ensures IsIdentifier("languages_used") {}
  lemma IdentifierLanguagesByUsage() ensures IsIdentifier("languages_by_usage") {}

  lemma PlainSurvivesTrimLower(s: string)
    requires NoSeparator(s) && NoUpper(s)
    ensures Lower(Trim(s)) == s
  {
    assert TrimStart(s) == s;
    assert TrimEnd(s) == s;
    assert Lower(s) == s;
  }

  lemma ParseFixedStat(name: string, k: StatKey)
    requires name == StatName(k) && Lower(Trim(name)) == name
    ensures ParseStat(Some(name)) == Some(k)
  {
    StatNameLookup(name, k);
    ParseStatByKey(name, k);
  }

  lemma StatNameLookup(name: string, k: StatKey)
    requires name == StatName(k)
    ensures StatFromName(name) == Some(k) && name != ""
  {
  }

  lemma ParseStatByKey(name: string, k: StatKey)
    requires name != "" && StatFromName(Lower(Trim(name))) == Some(k)
    ensures ParseStat(Some(name)) == Some(k)
  {
  }

  /**
    Unlike timeframes, statistic names are not rewritten: a hyphen where the
    name has an underscore is rejected.
   */
  lemma ParseStatKeepsHyphen(raw: string)
    requires raw == "top-languages"
    ensures ParseStat(Some(raw)) == None
  {
    HyphenatedShape(raw);
    CasedTextSurvivesTrimLower(raw);
    HyphenatedIsNoStat(raw);
    ParseStatIsLookup(raw);
  }

  lemma HyphenatedShape(raw: string)
    requires raw == "top-languages"
    ensures NoUpper(raw) && raw != [] && !IsSpace(raw[0]) && !IsSpace(raw[|raw| - 1])
  {
    assert raw[0] == 't' && raw[|raw| - 1] == 's';
  }

  /** Lower-case text that neither starts nor ends with a space is left alone by `trim().toLowerCase()`. */
  lemma CasedTextSurvivesTrimLower(s: string)
    requires NoUpper(s) && (s == [] || (!IsSpace(s[0]) && !IsSpace(s[|s| - 1])))
    ensures Lower(Trim(s)) == s
  {
    assert TrimStart(s) == s;
    assert TrimEnd(s) == s;
    assert Lower(s) == s;
  }

  lemma HyphenatedIsNoStat(raw: string)
    requires raw == "top-languages"
    ensures StatFromName(raw) == None
  {
    assert |raw| == 13 && raw[0] == 't' && raw[3] == '-';
    assert raw != "daily_average" && raw != "top_languages";
  }

  lemma ParseStatIsLookup(s: string)
    requires s != ""
    ensures ParseStat(Some(s)) == StatFromName(Lower(Trim(s)))
  {
  }

  // ---------------------------------------------------------------------------
  // The normalized bundle
  // ---------------------------------------------------------------------------

  /** One entry of a per-language or per-project list. */
  datatype LangAgg = LangAgg(name: string, seconds: real, percent: real)

  /** `{ seconds, text }` of `total_time` and `daily_average`. */
  datatype Duration = Duration(seconds: Option<real>, text: Option<string>)

  /** `most_active_day`. */
  datatype ActiveDay = ActiveDay(date: Option<string>, seconds: Option<real>, text: Option<string>)

  /** `NormalizedStatBundle`; the always-empty `source` object is not carried. */
  datatype Bundle = Bundle(
    timeframe: Timeframe,
    fetchedAt: string,
    dailyAverage: Duration,
    totalTime: Duration,
    topLanguages: seq<LangAgg>,
    mostActiveDay: ActiveDay,
    topProjects: seq<LangAgg>,
    languagesUsed: seq<string>,
    languagesByUsage: seq<LangAgg>)
}
