/** The timestamp gate of the log analyzer: `datetime.strptime(s,
    "%m/%d/%Y %H:%M:%S")`, of which only the hour is kept.

    `strptime` turns the format into a regular expression, one group of
    alternatives per directive (tried left to right), with the space between
    date and time widened to "one or more whitespace characters". The regex
    must match a prefix of the input and the prefix must be the whole input
    ("unconverted data remains" otherwise). The numbers are then checked by
    the calendar: year from 1, day within its month, second below 60. Every
    failure is a `ValueError`, which the analyzer swallows, so the parse is
    modelled as an `Option`. */
module Timestamp {
  import opened Wrappers

  // ---------------------------------------------------------------------------
  // The regular expression
  // ---------------------------------------------------------------------------

  /** A character class `[lo-hi]`. */
  datatype CharRange = CharRange(lo: char, hi: char)

  /** One alternative of a directive's group: one class per character. */
  type Alternative = seq<CharRange>

  const Digit := CharRange('0', '9')

  function Only(c: char): CharRange {
    CharRange(c, c)
  }

  /** `%m`: `1[0-2]|0[1-9]|[1-9]` */
  const MonthAlts: seq<Alternative> :=
    [[Only('1'), CharRange('0', '2')], [Only('0'), CharRange('1', '9')], [CharRange('1', '9')]]

  /** `%d`: `3[01]|[12]\d|0[1-9]|[1-9]| [1-9]` */
  const DayAlts: seq<Alternative> :=
    [ [Only('3'), CharRange('0', '1')], [CharRange('1', '2'), Digit], [Only('0'), CharRange('1', '9')]
    , [CharRange('1', '9')], [Only(' '), CharRange('1', '9')] ]

  /** `%Y`: `\d\d\d\d` */
  const YearAlts: seq<Alternative> := [[Digit, Digit, Digit, Digit]]

  /** `%H`: `2[0-3]|[0-1]\d|\d` */
  const HourAlts: seq<Alternative> :=
    [[Only('2'), CharRange('0', '3')], [CharRange('0', '1'), Digit], [Digit]]

  /** `%M`: `[0-5]\d|\d` */
  const MinuteAlts: seq<Alternative> := [[CharRange('0', '5'), Digit], [Digit]]

  /** `%S`: `6[0-1]|[0-5]\d|\d` */
  const SecondAlts: seq<Alternative> :=
    [[Only('6'), CharRange('0', '1')], [CharRange('0', '5'), Digit], [Digit]]

  /** `\s`: the characters for which Python's `str.isspace()` holds. */
  predicate IsSpace(c: char) {
    || '\t' <= c <= '\r'
    || '\U{1C}' <= c <= ' '
    || c == '\U{85}' || c == '\U{A0}' || c == '\U{1680}'
    || '\U{2000}' <= c <= '\U{200A}'
    || c == '\U{2028}' || c == '\U{2029}' || c == '\U{202F}' || c == '\U{205F}' || c == '\U{3000}'
  }

  predicate AltMatchesAt(s: string, i: nat, alt: Alternative) {
    i + |alt| <= |s| && forall k :: 0 <= k < |alt| ==> alt[k].lo <= s[i + k] <= alt[k].hi
  }

  /** The alternative matches at `i` and is followed by the literal `follow`,
      when there is one. Each group is followed by a separator that none of its
      alternatives can consume ('/', ':', whitespace, or the end of the
      pattern), so the regex engine's backtracking settles on the first
      alternative accepted in this sense. */
  predicate Accepts(s: string, i: nat, alt: Alternative, follow: Option<char>) {
    && AltMatchesAt(s, i, alt)
    && (follow.Some? ==> i + |alt| < |s| && s[i + |alt|] == follow.value)
  }

  /** The first alternative, from `a` on, accepted at `i`. */
  function FieldFrom(s: string, i: nat, alts: seq<Alternative>, follow: Option<char>, a: nat): (r: Option<nat>)
    requires a <= |alts|
    ensures r.Some? ==> a <= r.value < |alts| && Accepts(s, i, alts[r.value], follow)
    ensures r.Some? ==> forall b :: a <= b < r.value ==> !Accepts(s, i, alts[b], follow)
    ensures r.None? ==> forall b :: a <= b < |alts| ==> !Accepts(s, i, alts[b], follow)
    decreases |alts| - a
  {
    if a == |alts| then None
    else if Accepts(s, i, alts[a], follow) then Some(a)
    else FieldFrom(s, i, alts, follow, a + 1)
  }

  /** The alternative a directive's group settles on at position `i`. */
  function MatchField(s: string, i: nat, alts: seq<Alternative>, follow: Option<char>): Option<nat> {
    FieldFrom(s, i, alts, follow, 0)
  }

  /** `MatchField` answers exactly the first accepted alternative. */
  lemma MatchFieldIs(s: string, i: nat, alts: seq<Alternative>, follow: Option<char>, a: nat)
    requires a < |alts| && Accepts(s, i, alts[a], follow)
    requires forall b :: 0 <= b < a ==> !Accepts(s, i, alts[b], follow)
    ensures MatchField(s, i, alts, follow) == Some(a)
  {
  }

  /** An alternative whose `k`-th class misses the input is not accepted. */
  lemma RejectsAt(s: string, i: nat, alt: Alternative, follow: Option<char>, k: nat)
    requires k < |alt| && i + k < |s| && !(alt[k].lo <= s[i + k] <= alt[k].hi)
    ensures !Accepts(s, i, alt, follow)
  {
  }

  /** The end of the run of whitespace starting at `i`. */
  function SkipSpace(s: string, i: nat): (r: nat)
    requires i <= |s|
    ensures i <= r <= |s|
    ensures forall k :: i <= k < r ==> IsSpace(s[k])
    ensures r < |s| ==> !IsSpace(s[r])
    decreases |s| - i
  {
    if i < |s| && IsSpace(s[i]) then SkipSpace(s, i + 1) else i
  }

  // ---------------------------------------------------------------------------
  // Numbers
  // ---------------------------------------------------------------------------

  function DigitValue(c: char): nat {
    if '0' <= c <= '9' then c as int - '0' as int else 0
  }

  /** `int()` of a matched group. The only non-digit a group can hold is the
      leading space of `%d`'s last alternative, which counts as 0 here as it
      is ignored by `int()`. */
  function Decimal(t: string): nat {
    if |t| == 0 then 0 else Decimal(t[..|t| - 1]) * 10 + DigitValue(t[|t| - 1])
  }

  lemma Decimal1(t: string)
    requires |t| == 1
    ensures Decimal(t) == DigitValue(t[0])
  {
    assert Decimal(t[..0]) == 0;
  }

  lemma Decimal2(t: string)
    requires |t| == 2
    ensures Decimal(t) == DigitValue(t[0]) * 10 + DigitValue(t[1])
  {
    Decimal1(t[..1]);
  }

  lemma Decimal4(t: string)
    requires |t| == 4
    ensures Decimal(t) == DigitValue(t[0]) * 1000 + DigitValue(t[1]) * 100 + DigitValue(t[2]) * 10 + DigitValue(t[3])
  {
    Decimal2(t[..2]);
    assert t[..3][..2] == t[..2];
  }

  // ---------------------------------------------------------------------------
  // Date-times
  // ---------------------------------------------------------------------------

  datatype DateTime = DateTime(year: nat, month: nat, day: nat, hour: nat, minute: nat, second: nat)

  predicate IsLeapYear(y: nat) {
    y % 4 == 0 && (y % 100 != 0 || y % 400 == 0)
  }

  function DaysInMonth(y: nat, m: nat): nat
    requires 1 <= m <= 12
  {
    if m == 2 then (if IsLeapYear(y) then 29 else 28)
    else if m == 4 || m == 6 || m == 9 || m == 11 then 30
    else 31
  }

  /** The checks `datetime` adds to what the regex already guarantees
      (`MatchFormat` keeps month, hour and minute in range): the year is not
      0, the day exists in its month, and the second is not a leap second. */
  predicate IsValid(dt: DateTime) {
    && 1 <= dt.year
    && 1 <= dt.month <= 12
    && 1 <= dt.day <= DaysInMonth(dt.year, dt.month)
    && dt.second < 60
  }

  /** The value of the group that alternative `a` of `alts` matched at `i`. */
  function GroupValue(s: string, i: nat, alts: seq<Alternative>, a: nat): nat
    requires a < |alts| && i + |alts[a]| <= |s|
  {
    Decimal(s[i..i + |alts[a]|])
  }

  /** The regex part of `strptime`: the fields it extracts, or `None` when the
      regex does not match or leaves unconverted data. The ranges ensured here
      come from the alternatives alone, before any calendar check. */
  function MatchFormat(s: string): (r: Option<DateTime>)
    ensures r.Some? ==> r.value.year <= 9999 && 1 <= r.value.month <= 12 && 1 <= r.value.day <= 31
    ensures r.Some? ==> r.value.hour <= 23 && r.value.minute <= 59 && r.value.second <= 61
  {
    var m :- MatchField(s, 0, MonthAlts, Some('/'));
    var dayAt := |MonthAlts[m]| + 1;
    var d :- MatchField(s, dayAt, DayAlts, Some('/'));
    var yearAt := dayAt + |DayAlts[d]| + 1;
    var y :- MatchField(s, yearAt, YearAlts, None);
    var spaceAt := yearAt + 4;
    var hourAt := SkipSpace(s, spaceAt);
    if hourAt == spaceAt then None
    else
      var h :- MatchField(s, hourAt, HourAlts, Some(':'));
      var minuteAt := hourAt + |HourAlts[h]| + 1;
      var mi :- MatchField(s, minuteAt, MinuteAlts, Some(':'));
      var secondAt := minuteAt + |MinuteAlts[mi]| + 1;
      var se :- MatchField(s, secondAt, SecondAlts, None);
      if secondAt + |SecondAlts[se]| != |s| then None
      else
        var dt := DateTime(
          GroupValue(s, yearAt, YearAlts, y), GroupValue(s, 0, MonthAlts, m),
          GroupValue(s, dayAt, DayAlts, d), GroupValue(s, hourAt, HourAlts, h),
          GroupValue(s, minuteAt, MinuteAlts, mi), GroupValue(s, secondAt, SecondAlts, se));
        MonthRange(s, m);
        DayRange(s, dayAt, d);
        YearRange(s, yearAt);
        HourRange(s, hourAt, h);
        MinuteRange(s, minuteAt, mi);
        SecondRange(s, secondAt, se);
        Some(dt)
  }

  /** The value of a one- or two-character group lies between the values of
      the lowest and the highest strings its classes allow. */
  lemma GroupBounds(s: string, i: nat, alt: Alternative)
    requires 1 <= |alt| <= 2 && AltMatchesAt(s, i, alt)
    requires forall k :: 0 <= k < |alt| ==> ('0' <= alt[k].lo && alt[k].hi <= '9') || alt[k].lo == alt[k].hi
    ensures Decimal(Lows(alt)) <= Decimal(s[i..i + |alt|]) <= Decimal(Highs(alt))
  {
    var t := s[i..i + |alt|];
    assert forall k :: 0 <= k < |alt| ==> alt[k].lo <= t[k] <= alt[k].hi;
    if |alt| == 1 {
      Decimal1(t);
      Decimal1(Lows(alt));
      Decimal1(Highs(alt));
    } else {
      Decimal2(t);
      Decimal2(Lows(alt));
      Decimal2(Highs(alt));
    }
  }

  function Lows(alt: Alternative): string {
    seq(|alt|, k requires 0 <= k < |alt| => alt[k].lo)
  }

  function Highs(alt: Alternative): string {
    seq(|alt|, k requires 0 <= k < |alt| => alt[k].hi)
  }

  lemma MonthRange(s: string, a: nat)
    requires a < |MonthAlts| && AltMatchesAt(s, 0, MonthAlts[a])
    ensures 1 <= GroupValue(s, 0, MonthAlts, a) <= 12
  {
    GroupBounds(s, 0, MonthAlts[a]);
    Decimal2("10");
    Decimal2("12");
    Decimal2("01");
    Decimal2("09");
    Decimal1("1");
    Decimal1("9");
  }

  lemma DayRange(s: string, i: nat, a: nat)
    requires a < |DayAlts| && AltMatchesAt(s, i, DayAlts[a])
    ensures 1 <= GroupValue(s, i, DayAlts, a) <= 31
  {
    GroupBounds(s, i, DayAlts[a]);
    Decimal2("30");
    Decimal2("31");
    Decimal2("10");
    Decimal2("29");
    Decimal2("01");
    Decimal2("09");
    Decimal1("1");
    Decimal1("9");
    Decimal2(" 1");
    Decimal2(" 9");
  }

  lemma YearRange(s: string, i: nat)
    requires AltMatchesAt(s, i, YearAlts[0])
    ensures GroupValue(s, i, YearAlts, 0) <= 9999
  {
    var t := s[i..i + 4];
    forall k | 0 <= k < 4
      ensures '0' <= t[k] <= '9'
    {
      assert YearAlts[0][k] == Digit;
      assert t[k] == s[i + k];
    }
    Decimal4(t);
  }

  lemma HourRange(s: string, i: nat, a: nat)
    requires a < |HourAlts| && AltMatchesAt(s, i, HourAlts[a])
    ensures GroupValue(s, i, HourAlts, a) <= 23
  {
    GroupBounds(s, i, HourAlts[a]);
    Decimal2("23");
    Decimal2("19");
    Decimal1("9");
  }

  lemma MinuteRange(s: string, i: nat, a: nat)
    requires a < |MinuteAlts| && AltMatchesAt(s, i, MinuteAlts[a])
    ensures GroupValue(s, i, MinuteAlts, a) <= 59
  {
    GroupBounds(s, i, MinuteAlts[a]);
    Decimal2("59");
    Decimal1("9");
  }

  lemma SecondRange(s: string, i: nat, a: nat)
    requires a < |SecondAlts| && AltMatchesAt(s, i, SecondAlts[a])
    ensures GroupValue(s, i, SecondAlts, a) <= 61
  {
    GroupBounds(s, i, SecondAlts[a]);
    Decimal2("61");
    Decimal2("59");
    Decimal1("9");
  }

  /** `datetime.strptime(s, "%m/%d/%Y %H:%M:%S").hour`, or `None` where
      `strptime` raises `ValueError`. */
  function ParseHour(s: string): (r: Option<nat>)
    ensures r.Some? ==> r.value < 24
  {
    match MatchFormat(s)
    case Some(dt) => if IsValid(dt) then Some(dt.hour) else None
    case None => None
  }

  // ---------------------------------------------------------------------------
  // Formatting and the round trip
  // ---------------------------------------------------------------------------

  /** Every field within what its regex group can spell with two digits
      (four for the year), including the seconds 60 and 61 that `%S` reads;
      the calendar may still reject the date-time. */
  predicate FitsFormat(dt: DateTime) {
    && dt.year <= 9999 && 1 <= dt.month <= 12 && 1 <= dt.day <= 31
    && dt.hour < 24 && dt.minute < 60 && dt.second <= 61
  }

  /** The decimal digit for `n % 10`. */
  function DigitChar(n: nat): (r: char)
    ensures '0' <= r <= '9' && DigitValue(r) == n % 10
  {
    ('0' as int + n % 10) as char
  }

  /** `n` zero-padded to two digits (`%02d`). */
  function Pad2(n: nat): string {
    [DigitChar(n / 10), DigitChar(n)]
  }

  /** `n` zero-padded to four digits (`%04d`). */
  function Pad4(n: nat): string {
    [DigitChar(n / 1000), DigitChar(n / 100), DigitChar(n / 10), DigitChar(n)]
  }

  /** The zero-padded printed form "MM/DD/YYYY HH:MM:SS" of a date-time
      whose fields fit the format. */
  function Format(dt: DateTime): (s: string)
    ensures |s| == 19
  {
    Pad2(dt.month) + "/" + Pad2(dt.day) + "/" + Pad4(dt.year) + " "
      + Pad2(dt.hour) + ":" + Pad2(dt.minute) + ":" + Pad2(dt.second)
  }

  /** Where each field of a printed date-time sits. */
  lemma FormatLayout(dt: DateTime)
    ensures var s := Format(dt);
      && s[0..2] == Pad2(dt.month) && s[2] == '/'
      && s[3..5] == Pad2(dt.day) && s[5] == '/'
      && s[6..10] == Pad4(dt.year) && s[10] == ' '
      && s[11..13] == Pad2(dt.hour) && s[13] == ':'
      && s[14..16] == Pad2(dt.minute) && s[16] == ':'
      && s[17..19] == Pad2(dt.second)
  {
    var mo, d, y, h, mi, se := Pad2(dt.month), Pad2(dt.day), Pad4(dt.year), Pad2(dt.hour), Pad2(dt.minute), Pad2(dt.second);
    assert Format(dt) == [mo[0], mo[1], '/', d[0], d[1], '/', y[0], y[1], y[2], y[3], ' ',
      h[0], h[1], ':', mi[0], mi[1], ':', se[0], se[1]];
  }

  lemma Pad2Value(n: nat)
    requires n < 100
    ensures Decimal(Pad2(n)) == n
  {
    Decimal2(Pad2(n));
  }

  lemma Pad4Value(n: nat)
    requires n < 10000
    ensures Decimal(Pad4(n)) == n
  {
    Decimal4(Pad4(n));
    assert (n / 1000) % 10 == n / 1000;
    assert n == (n / 10) * 10 + n % 10;
    assert n / 10 == (n / 100) * 10 + (n / 10) % 10;
    assert n / 100 == (n / 1000) * 10 + (n / 100) % 10;
  }

  /** A two-digit group whose alternative `a` accepts the padded number and
      whose earlier alternatives do not: the regex reads the number back. */
  lemma TwoDigitField(s: string, i: nat, alts: seq<Alternative>, follow: Option<char>, a: nat, n: nat)
    requires n < 100 && i + 2 <= |s| && s[i..i + 2] == Pad2(n)
    requires a < |alts| && |alts[a]| == 2 && Accepts(s, i, alts[a], follow)
    requires forall b :: 0 <= b < a ==> !Accepts(s, i, alts[b], follow)
    ensures MatchField(s, i, alts, follow) == Some(a)
    ensures GroupValue(s, i, alts, a) == n
  {
    MatchFieldIs(s, i, alts, follow, a);
    Pad2Value(n);
  }

  /** The two characters of a padded number, in place. */
  lemma Pad2Chars(s: string, i: nat, n: nat)
    requires i + 2 <= |s| && s[i..i + 2] == Pad2(n)
    ensures s[i] == DigitChar(n / 10) && s[i + 1] == DigitChar(n)
  {
    assert s[i] == s[i..i + 2][0];
    assert s[i + 1] == s[i..i + 2][1];
  }

  lemma FormatMonth(s: string, n: nat)
    requires 1 <= n <= 12 && |s| >= 3 && s[0..2] == Pad2(n) && s[2] == '/'
    ensures MatchField(s, 0, MonthAlts, Some('/')) == Some(if n >= 10 then 0 else 1)
    ensures GroupValue(s, 0, MonthAlts, if n >= 10 then 0 else 1) == n
  {
    Pad2Chars(s, 0, n);
    if n < 10 {
      RejectsAt(s, 0, MonthAlts[0], Some('/'), 0);
    }
    TwoDigitField(s, 0, MonthAlts, Some('/'), if n >= 10 then 0 else 1, n);
  }

  function DayAltOf(day: nat): nat {
    if day >= 30 then 0 else if day >= 10 then 1 else 2
  }

  lemma FormatDay(s: string, n: nat)
    requires 1 <= n <= 31 && |s| >= 6 && s[3..5] == Pad2(n) && s[5] == '/'
    ensures MatchField(s, 3, DayAlts, Some('/')) == Some(DayAltOf(n))
    ensures GroupValue(s, 3, DayAlts, DayAltOf(n)) == n
  {
    Pad2Chars(s, 3, n);
    if n < 30 {
      RejectsAt(s, 3, DayAlts[0], Some('/'), 0);
    }
    if n < 10 {
      RejectsAt(s, 3, DayAlts[1], Some('/'), 0);
    }
    TwoDigitField(s, 3, DayAlts, Some('/'), DayAltOf(n), n);
  }

  lemma FormatYear(s: string, n: nat)
    requires n <= 9999 && |s| >= 11 && s[6..10] == Pad4(n) && s[10] == ' '
    ensures MatchField(s, 6, YearAlts, None) == Some(0)
    ensures GroupValue(s, 6, YearAlts, 0) == n
  {
    forall j | 6 <= j < 10
      ensures '0' <= s[j] <= '9'
    {
      assert s[j] == s[6..10][j - 6];
    }
    MatchFieldIs(s, 6, YearAlts, None, 0);
    Pad4Value(n);
  }

  lemma FormatHour(s: string, n: nat)
    requires n < 24 && |s| >= 14 && s[10] == ' ' && s[11..13] == Pad2(n) && s[13] == ':'
    ensures SkipSpace(s, 10) == 11
    ensures MatchField(s, 11, HourAlts, Some(':')) == Some(if n >= 20 then 0 else 1)
    ensures GroupValue(s, 11, HourAlts, if n >= 20 then 0 else 1) == n
  {
    Pad2Chars(s, 11, n);
    assert IsSpace(s[10]) && !IsSpace(s[11]);
    if n < 20 {
      RejectsAt(s, 11, HourAlts[0], Some(':'), 0);
    }
    TwoDigitField(s, 11, HourAlts, Some(':'), if n >= 20 then 0 else 1, n);
  }

  lemma FormatMinute(s: string, n: nat)
    requires n < 60 && |s| >= 17 && s[14..16] == Pad2(n) && s[16] == ':'
    ensures MatchField(s, 14, MinuteAlts, Some(':')) == Some(0)
    ensures GroupValue(s, 14, MinuteAlts, 0) == n
  {
    Pad2Chars(s, 14, n);
    TwoDigitField(s, 14, MinuteAlts, Some(':'), 0, n);
  }

  lemma FormatSecond(s: string, n: nat)
    requires n <= 61 && |s| == 19 && s[17..19] == Pad2(n)
    ensures MatchField(s, 17, SecondAlts, None) == Some(if n >= 60 then 0 else 1)
    ensures GroupValue(s, 17, SecondAlts, if n >= 60 then 0 else 1) == n
  {
    Pad2Chars(s, 17, n);
    if n < 60 {
      RejectsAt(s, 17, SecondAlts[0], None, 0);
    }
    TwoDigitField(s, 17, SecondAlts, None, if n >= 60 then 0 else 1, n);
  }

  /** Parsing a printed date-time gives it back: the regex accepts
      the zero-padded form of every field and reads the same numbers. */
  lemma FormatThenMatch(dt: DateTime)
    requires FitsFormat(dt)
    ensures MatchFormat(Format(dt)) == Some(dt)
  {
    var s := Format(dt);
    FormatLayout(dt);
    FormatMonth(s, dt.month);
    FormatDay(s, dt.day);
    FormatYear(s, dt.year);
    FormatHour(s, dt.hour);
    FormatMinute(s, dt.minute);
    FormatSecond(s, dt.second);
    MatchTwoDigitLayout(s, if dt.month >= 10 then 0 else 1, DayAltOf(dt.day), if dt.hour >= 20 then 0 else 1,
      if dt.second >= 60 then 0 else 1, dt);
  }

  /** `MatchFormat` on a 19-character string whose groups all take two
      characters (four for the year) and hold the fields of `dt`. */
  lemma MatchTwoDigitLayout(s: string, m: nat, d: nat, h: nat, se: nat, dt: DateTime)
    requires |s| == 19 && m < 2 && d < 3 && h < 2 && se < 2
    requires MatchField(s, 0, MonthAlts, Some('/')) == Some(m) && GroupValue(s, 0, MonthAlts, m) == dt.month
    requires MatchField(s, 3, DayAlts, Some('/')) == Some(d) && GroupValue(s, 3, DayAlts, d) == dt.day
    requires MatchField(s, 6, YearAlts, None) == Some(0) && GroupValue(s, 6, YearAlts, 0) == dt.year
    requires SkipSpace(s, 10) == 11
    requires MatchField(s, 11, HourAlts, Some(':')) == Some(h) && GroupValue(s, 11, HourAlts, h) == dt.hour
    requires MatchField(s, 14, MinuteAlts, Some(':')) == Some(0) && GroupValue(s, 14, MinuteAlts, 0) == dt.minute
    requires MatchField(s, 17, SecondAlts, None) == Some(se) && GroupValue(s, 17, SecondAlts, se) == dt.second
    ensures MatchFormat(s) == Some(dt)
  {
    assert |MonthAlts[m]| == 2 && |DayAlts[d]| == 2 && |HourAlts[h]| == 2 && |SecondAlts[se]| == 2;
  }

  /** A printed date-time yields its hour exactly when the calendar accepts
      it. */
  lemma FormatThenParseHour(dt: DateTime)
    requires FitsFormat(dt)
    ensures ParseHour(Format(dt)) == if IsValid(dt) then Some(dt.hour) else None
  {
    FormatThenMatch(dt);
  }
}
