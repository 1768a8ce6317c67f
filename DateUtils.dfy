/**
 * The calendar helpers of the viewer: the Monday that starts a week, the seven
 * days of a week, the week-range label, weekday identifiers for matching day
 * columns, and the flexible parser for the sheet's week-start date.
 * Month and weekday names are the English ones.
 */
module DateUtils {
  import opened Wrappers
  import opened Text
  import opened Calendar

  /** The Monday on or before day `n`; a Sunday belongs to the week that began six days earlier. */
  function WeekStart(n: int): (m: int)
    ensures Weekday(m) == 1 && m <= n <= m + 6
  {
    n - (Weekday(n) + 6) % 7
  }

  /** Two days with the same weekday less than a week apart are the same day. */
  lemma SameWeekdayClose(a: int, b: int)
    requires Weekday(a) == Weekday(b) && a <= b <= a + 6
    ensures a == b
  {
    assert (b - a) % 7 == 0 by {
      assert (a + 4) - (a + 4) % 7 == 7 * ((a + 4) / 7);
      assert (b + 4) - (b + 4) % 7 == 7 * ((b + 4) / 7);
    }
  }

  /** The Monday on or before `n` is unique: WeekStart is the only day with those properties. */
  lemma WeekStartUnique(n: int, m: int)
    requires Weekday(m) == 1 && m <= n <= m + 6
    ensures m == WeekStart(n)
  {
    var w := WeekStart(n);
    if m <= w { SameWeekdayClose(m, w); } else { SameWeekdayClose(w, m); }
  }

  /** A Sunday maps to the Monday six days earlier and a Monday to itself. */
  lemma WeekStartOfSundayAndMonday(n: int)
    ensures Weekday(n) == 0 ==> WeekStart(n) == n - 6
    ensures Weekday(n) == 1 ==> WeekStart(n) == n
  {
    if Weekday(n) == 0 { WeekStartUnique(n, n - 6); }
    if Weekday(n) == 1 { WeekStartUnique(n, n); }
  }

  /** The start of a week starts its own week. */
  lemma WeekStartIdempotent(n: int)
    ensures WeekStart(WeekStart(n)) == WeekStart(n)
  {
    WeekStartUnique(WeekStart(n), WeekStart(n));
  }

  /** Moving a date by whole weeks moves its week start by the same amount. */
  lemma WeekStartShift(n: int, weeks: int)
    ensures WeekStart(n + 7 * weeks) == WeekStart(n) + 7 * weeks
  {
    var m := WeekStart(n) + 7 * weeks;
    assert Weekday(m) == 1 by {
      WeekdayShift(WeekStart(n), weeks);
    }
    WeekStartUnique(n + 7 * weeks, m);
  }

  /** A day a whole number of weeks away keeps its weekday and its week start moves with it. */
  lemma WeeksLater(n: int, weeks: int, r: int)
    requires r == n + 7 * weeks
    ensures Weekday(r) == Weekday(n) && WeekStart(r) == WeekStart(n) + 7 * weeks
  {
    WeekdayShift(n, weeks);
    WeekStartShift(n, weeks);
  }

  /** Some day of the week starting at `n` falls on weekday `w`: the one `(w - Weekday(n)) mod 7` days on. */
  lemma WeekdayAhead(n: int, w: int)
    requires 0 <= w < 7
    ensures 0 <= (w - Weekday(n) + 7) % 7 < 7
    ensures Weekday(n + (w - Weekday(n) + 7) % 7) == w
  {
    var d, q := Weekday(n), (n + 4) / 7;
    assert n + 4 == 7 * q + d;
    var k := (w - d + 7) % 7;
    if w >= d {
      assert k == w - d;
      assert n + k + 4 == 7 * q + w;
    } else {
      assert k == w - d + 7;
      assert n + k + 4 == 7 * (q + 1) + w;
    }
  }

  lemma WeekdayShift(n: int, weeks: int)
    ensures Weekday(n + 7 * weeks) == Weekday(n)
  {
    var q := (n + 4) / 7;
    assert n + 4 == 7 * q + (n + 4) % 7;
    assert n + 7 * weeks + 4 == 7 * (q + weeks) + (n + 4) % 7;
  }

  /** The week start is reached by stepping back to the weekday-1 day, or six days from a Sunday. */
  lemma WeekStartOffset(n: int)
    ensures WeekStart(n) == n - Weekday(n) + (if Weekday(n) == 0 then -6 else 1)
  {
  }

  /** `getWeekStartDate`: copy the date and move the copy back to the Monday of its week. */
  method GetWeekStartDate(date: int) returns (start: int)
    ensures start == WeekStart(date)
  {
    var d := new JsDate(date);
    var day := d.GetDay();
    var diff := d.GetDate() - day + (if day == 0 then -6 else 1);
    d.SetDate(diff);
    start := d.time;
    WeekStartOffset(date);
  }

  /** `getWeekDays`: seven copies of the start date, the i-th moved on by i days. */
  method GetWeekDays(startDate: int) returns (days: seq<int>)
    ensures |days| == 7
    ensures forall i :: 0 <= i < 7 ==> days[i] == startDate + i
  {
    days := [];
    for i := 0 to 7
      invariant |days| == i
      invariant forall k :: 0 <= k < i ==> days[k] == startDate + k
    {
      var d := new JsDate(startDate);
      d.SetDate(d.GetDate() + i);
      days := days + [d.time];
    }
  }

  const MonthNames: seq<string> := ["January", "February", "March", "April", "May", "June",
    "July", "August", "September", "October", "November", "December"]

  /** `toLocaleString(…, { month: 'long' })` of a date in month `m` (1..12). */
  function MonthName(m: int): string
    requires 1 <= m <= 12
  {
    MonthNames[m - 1]
  }

  /** Different months have different names, so comparing names compares months. */
  lemma MonthNameInjective(a: int, b: int)
    requires 1 <= a <= 12 && 1 <= b <= 12
    ensures MonthName(a) == MonthName(b) <==> a == b
  {
  }

  /** The label text for the week `start`..`end`, from the two dates' calendar views. */
  function RangeLabel(s: CivilDate, e: CivilDate): string
    requires ValidCivil(s) && ValidCivil(e)
  {
    if MonthName(s.month) == MonthName(e.month) then
      MonthName(s.month) + " " + IntToString(s.day) + " - " + IntToString(e.day) + ", " + IntToString(s.year)
    else
      MonthName(s.month) + " " + IntToString(s.day) + " - " + MonthName(e.month) + " "
        + IntToString(e.day) + ", " + IntToString(e.year)
  }

  /** `formatDateRange`: the end date is a copy of the start moved on by six days. */
  method FormatDateRange(startDate: JsDate) returns (caption: string)
    ensures caption == RangeLabel(CivilOf(startDate.time), CivilOf(startDate.time + 6))
  {
    var endDate := SixDaysOn(startDate);
    caption := RangeLabel(CivilOf(startDate.time), CivilOf(endDate.time));
  }

  /** `new Date(startDate)` then `setDate(startDate.getDate() + 6)`: a new date six days on. */
  method SixDaysOn(startDate: JsDate) returns (endDate: JsDate)
    ensures fresh(endDate) && endDate.time == startDate.time + 6
  {
    endDate := new JsDate(startDate.time);
    endDate.SetDate(startDate.GetDate() + 6);
  }

  /**
   * The end of a week label is `EndOfWeek` of its start: six days later in the same
   * month, or in the first days of the next month (January of the next year when
   * the week starts in December).
   */
  lemma WeekRangeEnds(start: int)
    ensures CivilOf(start + 6) == EndOfWeek(CivilOf(start))
  {
    CivilOfDayNumber(EndOfWeek(CivilOf(start)));
  }

  /** The calendar date six days after the valid date `s`, rolled into the next month if need be. */
  function EndOfWeek(s: CivilDate): (e: CivilDate)
    requires ValidCivil(s)
    ensures ValidCivil(e) && DayNumber(e) == DayNumber(s) + 6
    ensures s.day + 6 <= DaysInMonth(s.year, s.month) ==> e == CivilDate(s.year, s.month, s.day + 6)
    ensures s.day + 6 > DaysInMonth(s.year, s.month) ==>
      e.day == s.day + 6 - DaysInMonth(s.year, s.month) && 1 <= e.day <= 6 &&
      (if s.month == 12 then e.year == s.year + 1 && e.month == 1
       else e.year == s.year && e.month == s.month + 1)
  {
    var dim := DaysInMonth(s.year, s.month);
    if s.day + 6 <= dim then CivilDate(s.year, s.month, s.day + 6)
    else if s.month < 12 then
      MonthStep(s.year, s.month);
      CivilDate(s.year, s.month + 1, s.day + 6 - dim)
    else
      YearStartStep(s.year);
      CivilDate(s.year + 1, 1, s.day + 6 - dim)
  }

  const WeekdayNames: seq<string> := ["Sunday", "Monday", "Tuesday", "Wednesday", "Thursday", "Friday", "Saturday"]
  const ShortWeekdayNames: seq<string> := ["Sun", "Mon", "Tue", "Wed", "Thu", "Fri", "Sat"]
  const DayIdentifiers: seq<string> := ["sunday", "monday", "tuesday", "wednesday", "thursday", "friday", "saturday"]

  /** `getDayOfWeekIdentifier`: the lower-cased full English weekday name. */
  function GetDayOfWeekIdentifier(date: int): (id: string)
    ensures id == DayIdentifiers[Weekday(date)]
  {
    ToLower(WeekdayNames[Weekday(date)])
  }

  /** Two dates share an identifier exactly when they fall on the same weekday. */
  lemma DayIdentifierIff(a: int, b: int)
    ensures GetDayOfWeekIdentifier(a) == GetDayOfWeekIdentifier(b) <==> Weekday(a) == Weekday(b)
  {
  }

  datatype DayHeader = DayHeader(day: string, date: int)

  /** `formatDayHeader`: the short weekday name and the day of the month. */
  function FormatDayHeader(date: int): (h: DayHeader)
    ensures 1 <= h.date <= 31 && h.date == CivilOf(date).day
    ensures h.day == WeekdayNames[Weekday(date)][..3]
  {
    DayHeader(ShortWeekdayNames[Weekday(date)], CivilOf(date).day)
  }

  /** Three digit groups shaped as `\d{1,2}`, `\d{1,2}` and `\d{4}`. */
  predicate GroupsShaped(g: (string, string, string)) {
    1 <= |g.0| <= 2 && 1 <= |g.1| <= 2 && |g.2| == 4
    && AllDigits(g.0) && AllDigits(g.1) && AllDigits(g.2)
  }

  function Glue(g: (string, string, string), sep: char): string {
    g.0 + [sep] + g.1 + [sep] + g.2
  }

  /** The split of `s` whose first group has `a` characters and second `b`, if it fits the pattern. */
  function TryGroups(s: string, sep: char, a: nat, b: nat): (r: Option<(string, string, string)>)
    ensures r.Some? ==> GroupsShaped(r.value) && s == Glue(r.value, sep)
  {
    if |s| == a + b + 6 && 1 <= a <= 2 && 1 <= b <= 2 && s[a] == sep && s[a + b + 1] == sep then
      var g := (s[..a], s[a + 1..a + 1 + b], s[a + b + 2..]);
      if AllDigits(g.0) && AllDigits(g.1) && AllDigits(g.2) then
        assert s == Glue(g, sep);
        Some(g)
      else None
    else None
  }

  /** The capture groups of a whole-string match of `^(\d{1,2})<sep>(\d{1,2})<sep>(\d{4})$`. */
  function MatchNumericDate(s: string, sep: char): (r: Option<(string, string, string)>)
    ensures r.Some? ==> GroupsShaped(r.value) && s == Glue(r.value, sep)
  {
    var r11 := TryGroups(s, sep, 1, 1);
    if r11.Some? then r11 else
    var r12 := TryGroups(s, sep, 1, 2);
    if r12.Some? then r12 else
    var r21 := TryGroups(s, sep, 2, 1);
    if r21.Some? then r21 else
    TryGroups(s, sep, 2, 2)
  }

  /** Where the groups and the separators of a glued date sit. */
  lemma GlueSlices(g: (string, string, string), sep: char)
    ensures var s, a, b := Glue(g, sep), |g.0|, |g.1|;
      |s| == a + b + 2 + |g.2| && s[a] == sep && s[a + b + 1] == sep
      && s[..a] == g.0 && s[a + 1..a + 1 + b] == g.1 && s[a + b + 2..] == g.2
  {
    var s, a, b := Glue(g, sep), |g.0|, |g.1|;
    var t := [sep] + g.1 + [sep] + g.2;
    assert s == g.0 + t;
    assert s[..a] == g.0 && s[a..] == t;
    var u := g.1 + [sep] + g.2;
    assert t[1..] == u;
    assert u[..b] == g.1 && u[b + 1..] == g.2;
    assert s[a + 1..a + 1 + b] == u[..b];
    assert s[a + b + 2..] == u[b + 1..];
  }

  /** A glued date of digit groups holds nothing but digits and the separator. */
  lemma GlueChars(g: (string, string, string), sep: char)
    requires GroupsShaped(g)
    ensures forall i :: 0 <= i < |Glue(g, sep)| ==> IsDigit(Glue(g, sep)[i]) || Glue(g, sep)[i] == sep
    ensures forall c :: c in Glue(g, sep) && !IsDigit(c) ==> c == sep
  {
    var s, a, b := Glue(g, sep), |g.0|, |g.1|;
    GlueSlices(g, sep);
    forall i | 0 <= i < |s|
      ensures IsDigit(s[i]) || s[i] == sep
    {
      if i < a {
        assert s[i] == s[..a][i];
      } else if a < i < a + b + 1 {
        assert s[i] == s[a + 1..a + 1 + b][i - a - 1];
      } else if i > a + b + 1 {
        assert s[i] == s[a + b + 2..][i - a - b - 2];
      }
    }
  }

  /** Every string of the pattern's shape matches, with exactly its own groups captured. */
  lemma MatchNumericDateComplete(g: (string, string, string), sep: char)
    requires GroupsShaped(g) && !IsDigit(sep)
    ensures MatchNumericDate(Glue(g, sep), sep) == Some(g)
  {
    var s := Glue(g, sep);
    var a, b := |g.0|, |g.1|;
    GlueSlices(g, sep);
    assert TryGroups(s, sep, a, b) == Some(g);
    if a == 2 {
      assert IsDigit(s[1]);
    }
    if b == 2 {
      assert IsDigit(s[a + 2]);
    }
  }

  /**
   * `parseFlexibleDate`: empty gives null; `D.M.YYYY` is read day first; failing
   * that, `M/D/YYYY` is read month first; failing both, the host's own parser
   * `native` decides (null when it yields an invalid date).
   */
  function ParseFlexibleDate(s: string, native: string -> Option<int>): Option<int> {
    if s == "" then None
    else match MatchNumericDate(s, '.')
      case Some((d, m, y)) => Some(MakeDate(DigitsValue(y), DigitsValue(m) - 1, DigitsValue(d)))
      case None =>
        match MatchNumericDate(s, '/')
        case Some((m, d, y)) => Some(MakeDate(DigitsValue(y), DigitsValue(m) - 1, DigitsValue(d)))
        case None => native(s)
  }

  /** The empty string parses to null. */
  lemma ParseEmpty(native: string -> Option<int>)
    ensures ParseFlexibleDate("", native) == None
  {
  }

  /** A dotted date is read day, month, year. */
  lemma ParseDayFirst(day: string, month: string, year: string, native: string -> Option<int>)
    requires GroupsShaped((day, month, year))
    ensures ParseFlexibleDate(Glue((day, month, year), '.'), native)
      == Some(MakeDate(DigitsValue(year), DigitsValue(month) - 1, DigitsValue(day)))
  {
    MatchNumericDateComplete((day, month, year), '.');
  }

  /** A slashed date is read month, day, year: the dotted pattern never matches it. */
  lemma ParseMonthFirst(month: string, day: string, year: string, native: string -> Option<int>)
    requires GroupsShaped((month, day, year))
    ensures ParseFlexibleDate(Glue((month, day, year), '/'), native)
      == Some(MakeDate(DigitsValue(year), DigitsValue(month) - 1, DigitsValue(day)))
  {
    MatchNumericDateComplete((month, day, year), '/');
    SlashedNotDotted((month, day, year));
  }

  /** A slashed date holds no dot, so the dotted pattern does not match it. */
  lemma SlashedNotDotted(g: (string, string, string))
    requires GroupsShaped(g)
    ensures MatchNumericDate(Glue(g, '/'), '.').None?
  {
    GlueChars(g, '/');
    AbsentSeparatorNoMatch(Glue(g, '/'), '.');
  }

  /** Without the separator in it, a string does not match the pattern for that separator. */
  lemma AbsentSeparatorNoMatch(s: string, sep: char)
    requires sep !in s
    ensures MatchNumericDate(s, sep).None?
  {
  }

  /** The host parser is consulted only for non-empty strings that fit neither pattern. */
  lemma ParseFallback(s: string, native: string -> Option<int>)
    requires s != ""
    ensures MatchNumericDate(s, '.').None? && MatchNumericDate(s, '/').None?
      ==> ParseFlexibleDate(s, native) == native(s)
    ensures MatchNumericDate(s, '.').Some? || MatchNumericDate(s, '/').Some?
      ==> (ParseFlexibleDate(s, native).Some?
           && forall other: string -> Option<int> :: ParseFlexibleDate(s, other) == ParseFlexibleDate(s, native))
  {
  }

  /**
   * Writing a valid date with a four-digit year as `D.M.YYYY`, or as `M/D/YYYY`,
   * and parsing it gives back that date.
   */
  lemma {:induction false} ParseRoundTrip(c: CivilDate, native: string -> Option<int>)
    requires ValidCivil(c) && 1000 <= c.year <= 9999
    ensures ParseFlexibleDate(Glue((NatToString(c.day), NatToString(c.month), NatToString(c.year)), '.'), native)
      == Some(DayNumber(c))
    ensures ParseFlexibleDate(Glue((NatToString(c.month), NatToString(c.day), NatToString(c.year)), '/'), native)
      == Some(DayNumber(c))
  {
    var day, month, year := NatToString(c.day), NatToString(c.month), NatToString(c.year);
    ParseDayFirst(day, month, year, native);
    ParseMonthFirst(month, day, year, native);
    MakeDateLiteral(c.year, c.month - 1, c.day, c.year, c.month, c.day);
  }

  /** A two-digit, two-digit, four-digit date glued with `sep`, character by character. */
  lemma GlueLayout(d0: char, d1: char, m0: char, m1: char, y0: char, y1: char, y2: char, y3: char, sep: char)
    ensures Glue(([d0, d1], [m0, m1], [y0, y1, y2, y3]), sep) == [d0, d1, sep, m0, m1, sep, y0, y1, y2, y3]
  {
  }

  /** The value of a two-digit numeral. */
  lemma TwoDigitsValue(a: char, b: char)
    requires IsDigit(a) && IsDigit(b)
    ensures DigitsValue([a, b]) == 10 * (a as int - '0' as int) + (b as int - '0' as int)
  {
    assert [a, b][..1] == [a] && [a][..0] == [];
  }

  /** The value of a four-digit numeral. */
  lemma FourDigitsValue(a: char, b: char, c: char, d: char)
    requires IsDigit(a) && IsDigit(b) && IsDigit(c) && IsDigit(d)
    ensures DigitsValue([a, b, c, d])
      == 1000 * (a as int - '0' as int) + 100 * (b as int - '0' as int) + 10 * (c as int - '0' as int) + (d as int - '0' as int)
  {
    assert [a, b, c, d][..3] == [a, b, c];
    TwoDigitsValue(a, b);
    assert [a, b, c][..2] == [a, b];
  }

  /** June 24, 2024, written day first with dots. */
  lemma ParseExampleDotted(native: string -> Option<int>)
    ensures ParseFlexibleDate("24.06.2024", native) == Some(DayNumber(CivilDate(2024, 6, 24)))
  {
    GlueLayout('2', '4', '0', '6', '2', '0', '2', '4', '.');
    ParseDayFirst("24", "06", "2024", native);
    JuneTwentyFourth();
  }

  /** June 24, 2024, written month first with slashes. */
  lemma ParseExampleSlashed(native: string -> Option<int>)
    ensures ParseFlexibleDate("06/24/2024", native) == Some(DayNumber(CivilDate(2024, 6, 24)))
  {
    GlueLayout('0', '6', '2', '4', '2', '0', '2', '4', '/');
    ParseMonthFirst("06", "24", "2024", native);
    JuneTwentyFourth();
  }

  /** A four-digit year below 100 is taken as a 1900s year by the Date constructor. */
  lemma ParseExampleCenturyQuirk(native: string -> Option<int>)
    ensures ParseFlexibleDate("01.01.0099", native) == Some(DayNumber(CivilDate(1999, 1, 1)))
  {
    GlueLayout('0', '1', '0', '1', '0', '0', '9', '9', '.');
    ParseDayFirst("01", "01", "0099", native);
    FourDigitsValue('0', '0', '9', '9');
    TwoDigitsValue('0', '1');
    assert MakeDate(99, 0, 1) == DayNumber(CivilDate(1999, 1, 1)) by {
      MakeDateLiteral(99, 0, 1, 1999, 1, 1);
    }
  }

  /** `new Date(y, mi, d)` for a month index 0..11 and a year outside 0..99, or in it, with the year in full. */
  lemma MakeDateLiteral(y: int, mi: int, d: int, fullYear: int, month: int, day: int)
    requires 0 <= mi < 12 && month == mi + 1 && day == d
    requires fullYear == if 0 <= y <= 99 then 1900 + y else y
    ensures MakeDate(y, mi, d) == DayNumber(CivilDate(fullYear, month, day))
  {
    assert mi / 12 == 0 && mi % 12 == mi;
  }

  lemma JuneTwentyFourth()
    ensures MakeDate(DigitsValue("2024"), DigitsValue("06") - 1, DigitsValue("24"))
      == DayNumber(CivilDate(2024, 6, 24))
  {
    FourDigitsValue('2', '0', '2', '4');
    TwoDigitsValue('0', '6');
    TwoDigitsValue('2', '4');
    MakeDateLiteral(2024, 5, 24, 2024, 6, 24);
  }
}
