/**
 * The proleptic Gregorian calendar behind JavaScript's `Date`, in local time.
 * A date is a day number: 0 is 1970-01-01, the day the epoch falls on.
 * Time of day and time zones are not modelled.
 */
module Calendar {

  datatype CivilDate = CivilDate(year: int, month: int, day: int)

  predicate IsLeapYear(y: int) {
    y % 4 == 0 && (y % 100 != 0 || y % 400 == 0)
  }

  function DaysInYear(y: int): int {
    if IsLeapYear(y) then 366 else 365
  }

  function DaysInMonth(y: int, m: int): int
    requires 1 <= m <= 12
  {
    if m == 2 then (if IsLeapYear(y) then 29 else 28)
    else if m == 4 || m == 6 || m == 9 || m == 11 then 30
    else 31
  }

  /** Days in year `y` before the first of month `m`; month 13 stands for the next year. */
  function DaysBeforeMonth(y: int, m: int): int
    requires 1 <= m <= 13
  {
    var leap := if IsLeapYear(y) && m > 2 then 1 else 0;
    leap +
    (if m == 1 then 0 else if m == 2 then 31 else if m == 3 then 59
     else if m == 4 then 90 else if m == 5 then 120 else if m == 6 then 151
     else if m == 7 then 181 else if m == 8 then 212 else if m == 9 then 243
     else if m == 10 then 273 else if m == 11 then 304 else if m == 12 then 334
     else 365)
  }

  /** The day number of January 1 of year `y` (leap years counted with floor division). */
  function YearStart(y: int): int {
    365 * y + (y - 1) / 4 - (y - 1) / 100 + (y - 1) / 400 - 719527
  }

  predicate ValidCivil(c: CivilDate) {
    1 <= c.month <= 12 && 1 <= c.day <= DaysInMonth(c.year, c.month)
  }

  /**
   * The day number of a (year, month, day) triple. The day of month may lie outside
   * the month: it then rolls over linearly, as MakeDay does in ECMAScript.
   */
  function DayNumber(c: CivilDate): int
    requires 1 <= c.month <= 12
  {
    YearStart(c.year) + DaysBeforeMonth(c.year, c.month) + c.day - 1
  }

  lemma YearStartStep(y: int)
    ensures YearStart(y + 1) == YearStart(y) + DaysInYear(y)
  {
    FloorStep(y, 4);
    FloorStep(y, 100);
    FloorStep(y, 400);
  }

  /** Floor division by `k` grows by one exactly at the multiples of `k`. */
  lemma FloorStep(y: int, k: int)
    requires k == 4 || k == 100 || k == 400
    ensures y / k - (y - 1) / k == if y % k == 0 then 1 else 0
  {
    if k == 4 {
      var q, r := (y - 1) / 4, (y - 1) % 4;
      if r == 3 { assert y == 4 * (q + 1); } else { assert y == 4 * q + (r + 1); }
    } else if k == 100 {
      var q, r := (y - 1) / 100, (y - 1) % 100;
      if r == 99 { assert y == 100 * (q + 1); } else { assert y == 100 * q + (r + 1); }
    } else {
      var q, r := (y - 1) / 400, (y - 1) % 400;
      if r == 399 { assert y == 400 * (q + 1); } else { assert y == 400 * q + (r + 1); }
    }
  }

  lemma MonthStep(y: int, m: int)
    requires 1 <= m <= 12
    ensures DaysBeforeMonth(y, m + 1) == DaysBeforeMonth(y, m) + DaysInMonth(y, m)
  {
  }

  lemma EraShift(q: int)
    ensures YearStart(2000 + 400 * q) == YearStart(2000) + 146097 * q
  {
  }

  lemma {:induction false} YearStartMonotone(a: int, b: int)
    requires a <= b
    ensures YearStart(a) <= YearStart(b)
    ensures a < b ==> YearStart(a + 1) <= YearStart(b)
    decreases b - a
  {
    if a < b {
      YearStartStep(a);
      YearStartMonotone(a + 1, b);
    }
  }

  /** The year whose days include day number `n`, searched upward from `y` below `bound`. */
  function FindYear(n: int, y: int, bound: int): (r: int)
    requires y < bound && YearStart(y) <= n < YearStart(bound)
    ensures y <= r < bound && YearStart(r) <= n < YearStart(r + 1)
    decreases bound - y
  {
    if n < YearStart(y + 1) then y else FindYear(n, y + 1, bound)
  }

  /** The year containing day number `n`: one 400-year cycle is searched. */
  function YearOf(n: int): (y: int)
    ensures YearStart(y) <= n < YearStart(y + 1)
  {
    var q := (n - YearStart(2000)) / 146097;
    EraShift(q);
    EraShift(q + 1);
    FindYear(n, 2000 + 400 * q, 2000 + 400 * (q + 1))
  }

  /** The month of year `y` holding day `r` of that year (0-based), searched upward from `m`. */
  function FindMonth(y: int, r: int, m: int): (k: int)
    requires 1 <= m <= 12 && DaysBeforeMonth(y, m) <= r < DaysInYear(y)
    ensures m <= k <= 12 && DaysBeforeMonth(y, k) <= r < DaysBeforeMonth(y, k + 1)
    decreases 12 - m
  {
    if r < DaysBeforeMonth(y, m + 1) || m == 12 then m else FindMonth(y, r, m + 1)
  }

  /** The Gregorian view of a day number (getFullYear, getMonth + 1, getDate). */
  function CivilOf(n: int): (c: CivilDate)
    ensures ValidCivil(c) && DayNumber(c) == n
  {
    var y := YearOf(n);
    YearStartStep(y);
    var m := FindMonth(y, n - YearStart(y), 1);
    MonthStep(y, m);
    CivilDate(y, m, n - YearStart(y) - DaysBeforeMonth(y, m) + 1)
  }

  lemma YearUnique(n: int, a: int, b: int)
    requires YearStart(a) <= n < YearStart(a + 1)
    requires YearStart(b) <= n < YearStart(b + 1)
    ensures a == b
  {
    if a < b { YearStartMonotone(a, b); }
    if b < a { YearStartMonotone(b, a); }
  }

  /** Every valid (year, month, day) is the Gregorian view of exactly its own day number. */
  lemma CivilOfDayNumber(c: CivilDate)
    requires ValidCivil(c)
    ensures CivilOf(DayNumber(c)) == c
  {
    DayNumberInjective(CivilOf(DayNumber(c)), c);
  }

  /** Two valid dates with the same day number are the same date. */
  lemma DayNumberInjective(c: CivilDate, d: CivilDate)
    requires ValidCivil(c) && ValidCivil(d) && DayNumber(c) == DayNumber(d)
    ensures c == d
  {
    var n := DayNumber(c);
    DayNumberBounds(c);
    DayNumberBounds(d);
    YearUnique(n, c.year, d.year);
    MonthUnique(c.year, n - YearStart(c.year), c.month, d.month);
  }

  /** The year of a valid date holds its day number, and its month holds the day's offset into the year. */
  lemma DayNumberBounds(c: CivilDate)
    requires ValidCivil(c)
    ensures YearStart(c.year) <= DayNumber(c) < YearStart(c.year + 1)
    ensures DaysBeforeMonth(c.year, c.month) <= DayNumber(c) - YearStart(c.year) < DaysBeforeMonth(c.year, c.month + 1)
  {
    MonthStep(c.year, c.month);
    MonthsBeforeYearEnd(c.year, c.month + 1);
    YearStartStep(c.year);
  }

  lemma MonthsBeforeYearEnd(y: int, m: int)
    requires 1 <= m <= 13
    ensures DaysBeforeMonth(y, m) <= DaysInYear(y)
  {
  }

  lemma MonthUnique(y: int, r: int, a: int, b: int)
    requires 1 <= a <= 12 && 1 <= b <= 12
    requires DaysBeforeMonth(y, a) <= r < DaysBeforeMonth(y, a + 1)
    requires DaysBeforeMonth(y, b) <= r < DaysBeforeMonth(y, b + 1)
    ensures a == b
  {
  }

  /** JavaScript `getDay`: 0 is Sunday, 1 Monday, ... 6 Saturday; 1970-01-01 was a Thursday. */
  function Weekday(n: int): (w: int)
    ensures 0 <= w < 7
  {
    (n + 4) % 7
  }

  /**
   * `new Date(year, monthIndex, day)` at local midnight: a year 0..99 stands for
   * 1900..1999 (MakeFullYear), the month index rolls over into the year and the
   * day into the neighbouring months (MakeDay).
   */
  function MakeDate(year: int, monthIndex: int, day: int): int {
    var fullYear := if 0 <= year <= 99 then 1900 + year else year;
    DayNumber(CivilDate(fullYear + monthIndex / 12, monthIndex % 12 + 1, day))
  }

  /** For a valid date whose year lies outside 0..99 the constructor yields that very date. */
  lemma MakeDateOfCivil(c: CivilDate)
    requires ValidCivil(c) && !(0 <= c.year <= 99)
    ensures CivilOf(MakeDate(c.year, c.month - 1, c.day)) == c
  {
    var mi := c.month - 1;
    assert 0 <= mi < 12;
    assert mi / 12 == 0 && mi % 12 == mi;
    assert MakeDate(c.year, mi, c.day) == DayNumber(c);
    CivilOfDayNumber(c);
  }

  /**
   * A mutable JavaScript `Date`, as the date helpers use it: a copy is made with
   * `new Date(other)` and then moved with `setDate`.
   */
  class JsDate {
    var time: int

    constructor (n: int)
      ensures time == n
    {
      time := n;
    }

    function GetDate(): int
      reads this
    {
      CivilOf(time).day
    }

    function GetMonth(): int
      reads this
    {
      CivilOf(time).month - 1
    }

    function GetFullYear(): int
      reads this
    {
      CivilOf(time).year
    }

    function GetDay(): int
      reads this
    {
      Weekday(time)
    }

    /** `setDate(date)`: same year and month, day of month `date`, rolling over as MakeDay does. */
    method SetDate(date: int)
      modifies this
      ensures time == old(time) - old(GetDate()) + date
    {
      var c := CivilOf(time);
      time := DayNumber(CivilDate(c.year, c.month, date));
    }
  }

  /**
   * Day `date` of the month that holds day `n`, counted as the `Date` constructor
   * counts it (rolling over into later or earlier months), is `date` minus the
   * day of the month of `n` days away from `n`.
   */
  lemma SetDateMoves(n: int, date: int)
    ensures var c := CivilOf(n);
      DayNumber(CivilDate(c.year, c.month, date)) == n - c.day + date
  {
  }
}