/**
  The display helpers: the title-case label of a timeframe, the `1h 2m 3s`
  rendering of a number of seconds, and the `M/D/YY` rendering of a
  `YYYY-MM-DD` date.
 */
module FormatUtil {
  import opened Wrappers
  import opened Strings
  import opened Types
  import opened Calendar

  // ---------------------------------------------------------------------------
  // timeframeLabel
  // ---------------------------------------------------------------------------

  /** `\w`: ASCII letters, digits and `_`. */
  predicate IsWordChar(c: char) {
    IsLower(c) || IsUpper(c) || IsDigit(c) || c == '_'
  }

  /**
    `s.replace(/_/g, " ")`: no underscore is left, and each character is
    either kept or is an underscore turned into a space.
   */
  function UnderscoresToSpaces(s: string): (r: string)
    ensures |r| == |s|
    ensures forall i :: 0 <= i < |r| ==> r[i] != '_'
    ensures forall i :: 0 <= i < |s| ==> r[i] == s[i] || (s[i] == '_' && r[i] == ' ')
  {
    seq(|s|, i requires 0 <= i < |s| => if s[i] == '_' then ' ' else s[i])
  }

  /** Position `i` of `s` is matched by `\b\w`: a word character not preceded by one. */
  predicate StartsWord(s: string, i: int)
    requires 0 <= i < |s|
  {
    IsWordChar(s[i]) && (i == 0 || !IsWordChar(s[i - 1]))
  }

  /**
    `s.replace(/\b\w/g, (c) => c.toUpperCase())`: only the case changes, no
    word begins with a lower-case letter, and every character that does not
    begin a word is kept.
   */
  function CapitalizeWords(s: string): (r: string)
    ensures |r| == |s|
    ensures Lower(r) == Lower(s)
    ensures forall i :: 0 <= i < |s| && StartsWord(s, i) ==> !IsLower(r[i])
    ensures forall i :: 0 <= i < |s| && !StartsWord(s, i) ==> r[i] == s[i]
  {
    seq(|s|, i requires 0 <= i < |s| => if StartsWord(s, i) then UpperChar(s[i]) else s[i])
  }

  /**
    `timeframeLabel`: the wire name with its underscores shown as spaces, up
    to case, with no underscore left and a capital first letter.
   */
  function TimeframeLabel(tf: Timeframe): (r: string)
    ensures |r| == |TimeframeName(tf)|
    ensures Lower(r) == UnderscoresToSpaces(TimeframeName(tf))
    ensures forall i :: 0 <= i < |r| ==> r[i] != '_'
    ensures r != [] && IsUpper(r[0])
  {
    TimeframeNameIsSnakeCase(tf);
    NameStartsWithLetter(tf);
    LabelOfSnakeCase(TimeframeName(tf));
    CapitalizeWords(UnderscoresToSpaces(TimeframeName(tf)))
  }

  lemma NameStartsWithLetter(tf: Timeframe)
    ensures TimeframeName(tf) != [] && IsLower(TimeframeName(tf)[0])
  {
  }

  /**
    The label of a snake-case key that starts with a letter: lower-cased it
    is the key with spaces, it keeps no underscore, and it starts with a
    capital.
   */
  lemma LabelOfSnakeCase(s: string)
    requires IsSnakeCase(s) && IsLower(s[0])
    ensures var r := CapitalizeWords(UnderscoresToSpaces(s));
      && Lower(r) == UnderscoresToSpaces(s)
      && (forall i :: 0 <= i < |r| ==> r[i] != '_')
      && r != [] && IsUpper(r[0])
  {
    var u := UnderscoresToSpaces(s);
    var r := CapitalizeWords(u);
    LowerUndoesCapitals(s);
    forall i | 0 <= i < |r| ensures r[i] != '_' {
      assert LowerChar(r[i]) == Lower(r)[i] == Lower(u)[i] == LowerChar(u[i]);
    }
    assert u[0] == s[0];
    assert StartsWord(u, 0);
  }

  lemma {:induction false} CollapseSpacedWords(s: string)
    requires IsIdentifier(s)
    requires forall i :: 0 <= i < |s| ==> !DoubleUnderscoreAt(s, i)
    ensures CollapseSeparators(UnderscoresToSpaces(s)) == s
    decreases |s|
  {
    if s != [] {
      var rest := UnderscoresToSpaces(s[1..]);
      SpacesCons(s);
      IdentifierTail(s);
      CollapseSpacedWords(s[1..]);
      if s[0] == '_' {
        NextIsWordStart(s);
        CollapseStepSpace(rest, s[1..]);
        assert "_" + s[1..] == s;
      } else {
        AlphanumericIsNotSpace(s[0]);
        CollapseStepPlain(s[0], rest, s[1..]);
        assert [s[0]] + s[1..] == s;
      }
    }
  }

  lemma IdentifierTail(s: string)
    requires s != [] && IsIdentifier(s)
    requires forall i :: 0 <= i < |s| ==> !DoubleUnderscoreAt(s, i)
    ensures IsIdentifier(s[1..])
    ensures forall i :: 0 <= i < |s[1..]| ==> !DoubleUnderscoreAt(s[1..], i)
  {
    forall i | 0 <= i < |s[1..]| ensures !DoubleUnderscoreAt(s[1..], i) {
      assert !DoubleUnderscoreAt(s, i + 1);
    }
  }

  lemma CollapseStepSpace(rest: string, t: string)
    requires rest == [] || !IsSeparator(rest[0])
    requires CollapseSeparators(rest) == t
    ensures CollapseSeparators([' '] + rest) == "_" + t
  {
    assert ([' '] + rest)[1..] == rest;
    assert DropSeparators(rest) == rest;
  }

  lemma CollapseStepPlain(c: char, rest: string, t: string)
    requires !IsSeparator(c)
    requires CollapseSeparators(rest) == t
    ensures CollapseSeparators([c] + rest) == [c] + t
  {
    assert ([c] + rest)[1..] == rest;
  }

  lemma SpacesCons(s: string)
    requires s != []
    ensures UnderscoresToSpaces(s) == [if s[0] == '_' then ' ' else s[0]] + UnderscoresToSpaces(s[1..])
  {
  }

  lemma NextIsWordStart(s: string)
    requires IsIdentifier(s) && s != [] && s[0] == '_'
    requires forall i :: 0 <= i < |s| ==> !DoubleUnderscoreAt(s, i)
    ensures var rest := UnderscoresToSpaces(s[1..]);
      rest == [] || !IsSeparator(rest[0])
  {
    if |s| > 1 {
      assert !DoubleUnderscoreAt(s, 0);
      assert UnderscoresToSpaces(s[1..])[0] == s[1];
      AlphanumericIsNotSpace(s[1]);
    }
  }

  lemma LowerUndoesCapitals(s: string)
    requires IsIdentifier(s)
    ensures Lower(CapitalizeWords(UnderscoresToSpaces(s))) == UnderscoresToSpaces(s)
  {
  }

  lemma AlphanumericIsNotSpace(c: char)
    requires IsLower(c) || IsUpper(c) || IsDigit(c)
    ensures !IsSpace(c)
  {
  }

  lemma LabelEndsAreNotSpaces(s: string)
    requires IsSnakeCase(s)
    ensures var shown := CapitalizeWords(UnderscoresToSpaces(s));
      !IsSpace(shown[0]) && !IsSpace(shown[|shown| - 1])
  {
    var u := UnderscoresToSpaces(s);
    var shown := CapitalizeWords(u);
    var n := |s| - 1;
    assert u[0] == s[0] && u[n] == s[n];
    assert IsLower(s[0]) || IsDigit(s[0]);
    assert IsLower(s[n]) || IsDigit(s[n]);
    assert shown[0] == UpperChar(s[0]);
    assert shown[n] == UpperChar(s[n]) || shown[n] == s[n];
    AlphanumericIsNotSpace(shown[0]);
    AlphanumericIsNotSpace(shown[n]);
  }

  /** A snake-case key's label normalizes back to the key. */
  lemma LabelNormalizesBack(s: string)
    requires IsSnakeCase(s)
    ensures NormalizeKey(CapitalizeWords(UnderscoresToSpaces(s))) == s
  {
    var shown := CapitalizeWords(UnderscoresToSpaces(s));
    LabelEndsAreNotSpaces(s);
    assert TrimStart(shown) == shown;
    assert TrimEnd(shown) == shown;
    assert Trim(shown) == shown;
    LowerUndoesCapitals(s);
    CollapseSpacedWords(s);
  }

  /** The label of a timeframe, given back as a query string, parses to the same timeframe. */
  lemma LabelParsesBack(tf: Timeframe)
    ensures ParseTimeframe(Some(TimeframeLabel(tf))) == Some(tf)
  {
    TimeframeNameIsSnakeCase(tf);
    LabelNormalizesBack(TimeframeName(tf));
  }

  /** Labels have no underscores and begin with a capital letter. */
  lemma LabelShape(tf: Timeframe)
    ensures forall i :: 0 <= i < |TimeframeLabel(tf)| ==> TimeframeLabel(tf)[i] != '_'
    ensures TimeframeLabel(tf) != [] && IsUpper(TimeframeLabel(tf)[0])
  {
    TimeframeNameIsSnakeCase(tf);
  }

  // ---------------------------------------------------------------------------
  // toFormattedTime
  // ---------------------------------------------------------------------------

  /** Whole hours, the minutes past them and the seconds past those. */
  datatype Clock = Clock(hours: nat, minutes: nat, seconds: nat)

  /** `h`, `m` and `s` of `toFormattedTime` for `total = Math.floor(seconds)`. */
  function ClockOf(total: nat): (c: Clock)
    ensures c.hours * 3600 + c.minutes * 60 + c.seconds == total
    ensures c.minutes < 60 && c.seconds < 60
  {
    ClockArithmetic(total);
    Clock(total / 3600, (total % 3600) / 60, total % 60)
  }

  lemma ClockArithmetic(total: nat)
    ensures (total / 3600) * 3600 + ((total % 3600) / 60) * 60 + total % 60 == total
    ensures (total % 3600) / 60 < 60
  {
    var q := total / 3600;
    var r := total % 3600;
    assert total == q * 3600 + r && 0 <= r < 3600;
    assert r == (r / 60) * 60 + r % 60;
    SameRemainder(total, q * 60 + r / 60, r % 60);
  }

  /** Writing `n` as `60k + s` with `0 <= s < 60` pins `s` to `n % 60`. */
  lemma SameRemainder(n: int, k: int, s: int)
    requires n == 60 * k + s && 0 <= s < 60
    ensures n % 60 == s
  {
  }

  /** The `parts` array: hours if any, minutes if any or if there are hours, then seconds. */
  function ClockParts(c: Clock): (parts: seq<string>)
    ensures |parts| == 1 + (if c.hours > 0 then 1 else 0) + (if c.hours > 0 || c.minutes > 0 then 1 else 0)
    ensures parts[|parts| - 1] == NatToString(c.seconds) + "s"
    ensures c.hours > 0 ==> parts[0] == NatToString(c.hours) + "h" && parts[1] == NatToString(c.minutes) + "m"
    ensures c.hours == 0 && c.minutes > 0 ==> parts[0] == NatToString(c.minutes) + "m"
  {
    (if c.hours != 0 then [NatToString(c.hours) + "h"] else [])
      + (if c.minutes != 0 || c.hours != 0 then [NatToString(c.minutes) + "m"] else [])
      + [NatToString(c.seconds) + "s"]
  }

  /** `toFormattedTime`: `null` for a missing, zero or negative number of seconds. */
  function FormattedTime(seconds: Option<real>): (r: Option<string>)
    ensures r.None? <==> seconds.None? || seconds.value <= 0.0
  {
    if seconds.None? || seconds.value <= 0.0 then None
    else Some(Join(ClockParts(ClockOf(seconds.value.Floor)), " "))
  }

  /** `toFormattedTime`, pushing the parts one by one. */
  method ToFormattedTime(seconds: Option<real>) returns (r: Option<string>)
    ensures r == FormattedTime(seconds)
  {
    if seconds.None? || seconds.value <= 0.0 {
      return None;
    }
    var total: nat := seconds.value.Floor;
    var h := total / 3600;
    var m := (total % 3600) / 60;
    var s := total % 60;
    var parts: seq<string> := [];
    if h != 0 {
      parts := parts + [NatToString(h) + "h"];
    }
    if m != 0 || h != 0 {
      parts := parts + [NatToString(m) + "m"];
    }
    parts := parts + [NatToString(s) + "s"];
    assert ClockOf(total) == Clock(h, m, s);
    assert parts == ClockParts(Clock(h, m, s));
    r := Some(Join(parts, " "));
  }

  /** The clock of a positive number of seconds reads back as its whole seconds. */
  lemma FormattedTimeClock(seconds: real)
    requires seconds > 0.0
    ensures FormattedTime(Some(seconds)).Some?
    ensures var c := ClockOf(seconds.Floor);
      c.hours * 3600 + c.minutes * 60 + c.seconds == seconds.Floor
      && c.minutes < 60 && c.seconds < 60
  {
  }

  // ---------------------------------------------------------------------------
  // toShortDate
  // ---------------------------------------------------------------------------

  /** `s.split("T")[0]`: everything before the first `T`. */
  function BeforeT(s: string): (r: string)
    ensures |r| <= |s| && r == s[..|r|]
    ensures 'T' !in r
    ensures |r| < |s| ==> s[|r|] == 'T'
  {
    if s == [] || s[0] == 'T' then [] else [s[0]] + BeforeT(s[1..])
  }

  /** `/^(\d{4})-(\d{2})-(\d{2})$/` matches `s`. */
  predicate IsYmdShape(s: string) {
    && |s| == 10
    && AllDigits(s[..4]) && s[4] == '-'
    && AllDigits(s[5..7]) && s[7] == '-'
    && AllDigits(s[8..])
  }

  /** `toShortDate`. */
  function ToShortDate(input: Option<string>): (r: Option<string>)
    ensures input.None? || input == Some("") ==> r.None?
    ensures input.Some? && input.value != "" && !IsYmdShape(BeforeT(input.value)) ==> r == input
  {
    if input.None? || input.value == "" then None
    else
      var ymd := BeforeT(input.value);
      if !IsYmdShape(ymd) then input
      else Some(NatToString(DigitsValue(ymd[5..7])) + "/" + NatToString(DigitsValue(ymd[8..]))
                + "/" + ymd[2..4])
  }

  lemma DigitsValueAppend(a: string, b: string)
    requires AllDigits(a) && AllDigits(b) && |b| == 2
    ensures AllDigits(a + b)
    ensures DigitsValue(a + b) == DigitsValue(a) * 100 + DigitsValue(b)
  {
    var d0, d1 := DigitValue(b[0]), DigitValue(b[1]);
    var ab := a + b;
    assert ab[..|ab| - 1] == a + [b[0]];
    assert (a + [b[0]])[..|a|] == a;
    assert DigitsValue(a + [b[0]]) == DigitsValue(a) * 10 + d0;
    assert DigitsValue(ab) == (DigitsValue(a) * 10 + d0) * 10 + d1;
    TwoDigitValue(b);
  }

  lemma TwoDigitStringsAgree(a: string, b: string)
    requires |a| == 2 && |b| == 2 && AllDigits(a) && AllDigits(b)
    requires DigitsValue(a) == DigitsValue(b)
    ensures a == b
  {
    TwoDigitValue(a);
    TwoDigitValue(b);
    DigitValueInjective(a[0], b[0]);
    DigitValueInjective(a[1], b[1]);
  }

  lemma TwoDigitValue(b: string)
    requires |b| == 2 && AllDigits(b)
    ensures DigitsValue(b) == DigitValue(b[0]) * 10 + DigitValue(b[1])
  {
    var b0 := b[..1];
    assert b0[..0] == [];
    assert DigitsValue(b0) == DigitValue(b[0]);
  }

  lemma DigitValueInjective(c: char, d: char)
    requires IsDigit(c) && IsDigit(d) && DigitValue(c) == DigitValue(d)
    ensures c == d
  {
  }

  /** The last two digits of a four-digit year are the year modulo 100, zero-padded. */
  lemma TwoDigitYear(y: nat)
    requires 1000 <= y <= 9999
    ensures |NatToString(y)| == 4
    ensures NatToString(y)[2..4] == PadStart(NatToString(y % 100), 2, '0')
  {
    var s := NatToString(y);
    FourDigits(y);
    NatToStringRoundTrip(y);
    LowDigits(s, y);
    var padded := PadStart(NatToString(y % 100), 2, '0');
    TwoDigits(y % 100);
    TwoDigitStringsAgree(s[2..4], padded);
  }

  /** The last two of four digits spell the number modulo 100. */
  lemma LowDigits(s: string, n: nat)
    requires |s| == 4 && AllDigits(s) && DigitsValue(s) == n
    ensures AllDigits(s[2..4]) && DigitsValue(s[2..4]) == n % 100
  {
    var hi, lo := s[..2], s[2..4];
    assert s == hi + lo;
    DigitsValueAppend(hi, lo);
    TwoDigitValue(lo);
    LastTwoDigits(DigitsValue(hi), DigitsValue(lo));
  }

  lemma LastTwoDigits(a: nat, b: nat)
    requires b < 100
    ensures (a * 100 + b) % 100 == b
  {
  }

  /** `toShortDate` of a string whose part before any `T` has the `YYYY-MM-DD` shape. */
  lemma ShortDateOfShape(x: string, s: string)
    requires x != "" && BeforeT(x) == s && IsYmdShape(s)
    ensures ToShortDate(Some(x)) ==
      Some(NatToString(DigitsValue(s[5..7])) + "/" + NatToString(DigitsValue(s[8..])) + "/" + s[2..4])
  {
  }

  /** `ymd` output has the `YYYY-MM-DD` shape, and a following `T...` is cut off again. */
  lemma YmdThenTime(d: Date, tail: string)
    requires ValidDate(d) && 1000 <= d.year <= 9999
    requires tail == [] || tail[0] == 'T'
    ensures IsYmdShape(Ymd(d)) && BeforeT(Ymd(d) + tail) == Ymd(d)
  {
    var s := Ymd(d);
    YmdRoundTrip(d);
    YmdShapeHasNoT(s);
    BeforeTOfPlain(s, tail);
  }

  /**
    What `ymd` writes (optionally followed by a `T...` time) comes back from
    `toShortDate` as month, day and two-digit year without leading zeros on
    month and day.
   */
  lemma ShortDateOfYmd(d: Date, tail: string)
    requires ValidDate(d) && 1000 <= d.year <= 9999
    requires tail == [] || tail[0] == 'T'
    ensures ToShortDate(Some(Ymd(d) + tail)) ==
      Some(NatToString(d.month) + "/" + NatToString(d.day) + "/" + PadStart(NatToString(d.year % 100), 2, '0'))
  {
    var s := Ymd(d);
    YmdThenTime(d, tail);
    YmdRoundTrip(d);
    YmdYearDigits(d);
    ShortDateOfShape(s + tail, s);
  }

  /** The third and fourth characters of `ymd` are the year's last two digits. */
  lemma YmdYearDigits(d: Date)
    requires ValidDate(d) && 1000 <= d.year <= 9999
    ensures |Ymd(d)| == 10 && Ymd(d)[2..4] == PadStart(NatToString(d.year % 100), 2, '0')
  {
    var s := Ymd(d);
    var y := NatToString(d.year);
    YmdRoundTrip(d);
    SliceOfPrefix(s, y);
    TwoDigitYear(d.year);
  }

  lemma SliceOfPrefix(s: string, y: string)
    requires |y| == 4 && |s| >= 4 && s[..4] == y
    ensures s[2..4] == y[2..4]
  {
    assert s[2..4] == s[..4][2..4];
  }

  lemma YmdShapeHasNoT(s: string)
    requires IsYmdShape(s)
    ensures 'T' !in s
  {
    forall i | 0 <= i < 10 ensures s[i] != 'T' {
      if i < 4 {
        assert s[..4][i] == s[i];
      } else if 4 < i < 7 {
        assert s[5..7][i - 5] == s[i];
      } else if 7 < i {
        assert s[8..][i - 8] == s[i];
      }
    }
  }

  lemma {:induction false} BeforeTOfPlain(s: string, tail: string)
    requires 'T' !in s
    requires tail == [] || tail[0] == 'T'
    ensures BeforeT(s + tail) == s
  {
    if s == [] {
      assert s + tail == tail;
    } else {
      assert (s + tail)[1..] == s[1..] + tail;
      BeforeTOfPlain(s[1..], tail);
    }
  }
}
