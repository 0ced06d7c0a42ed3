/**
 * Local calendar days and the JavaScript `Date` arithmetic both pickers use:
 * `new Date(y, m, d)` with its overflow normalisation, `getDay()`,
 * the days-in-month and Monday-first offset helpers, month navigation and
 * the month grid. Every date the components build is at local midnight, so a
 * date is its (year, month, day) triple and timestamp order is calendar order.
 */
module Calendar {
  import opened Wrappers

  /**
   * A local day as a `Date` reports it: `getFullYear()`, `getMonth()`
   * (0 = January .. 11 = December) and `getDate()`.
   */
  datatype Date = Date(year: int, month: int, day: int)

  predicate IsLeapYear(y: int) {
    y % 4 == 0 && (y % 100 != 0 || y % 400 == 0)
  }

  /** The Gregorian length of a month (months 0-based). */
  function MonthLength(year: int, month: int): int
    requires 0 <= month < 12
  {
    if month == 1 then (if IsLeapYear(year) then 29 else 28)
    else if month == 3 || month == 5 || month == 8 || month == 10 then 30
    else 31
  }

  predicate ValidDate(d: Date) {
    0 <= d.month < 12 && 1 <= d.day <= MonthLength(d.year, d.month)
  }

  function YearLength(y: int): int {
    if IsLeapYear(y) then 366 else 365
  }

  /**
   * Days from 1 January of year 1 (proleptic Gregorian) to 1 January of
   * year y, counted year by year (negative before year 1).
   */
  function DaysBeforeYear(y: int): int
    decreases if y >= 1 then y - 1 else 1 - y
  {
    if y == 1 then 0
    else if y > 1 then DaysBeforeYear(y - 1) + YearLength(y - 1)
    else DaysBeforeYear(y + 1) - YearLength(y)
  }

  /** Days from 1 January to the first of a month; month 12 stands for the next 1 January. */
  function DaysBeforeMonth(year: int, month: int): int
    requires 0 <= month <= 12
  {
    var common :=
      if month == 0 then 0 else if month == 1 then 31 else if month == 2 then 59
      else if month == 3 then 90 else if month == 4 then 120 else if month == 5 then 151
      else if month == 6 then 181 else if month == 7 then 212 else if month == 8 then 243
      else if month == 9 then 273 else if month == 10 then 304 else if month == 11 then 334
      else 365;
    common + (if month >= 2 && IsLeapYear(year) then 1 else 0)
  }

  /** The day's number counted from 1 January of year 1, which is day 0 and a Monday. */
  function DayNumber(d: Date): int
    requires 0 <= d.month < 12
  {
    DaysBeforeYear(d.year) + DaysBeforeMonth(d.year, d.month) + d.day - 1
  }

  /** Lexicographic order on (year, month, day): calendar order. */
  predicate Before(a: Date, b: Date) {
    a.year < b.year
    || (a.year == b.year && a.month < b.month)
    || (a.year == b.year && a.month == b.month && a.day < b.day)
  }

  lemma MonthStep(y: int, m: int)
    requires 0 <= m < 12
    ensures DaysBeforeMonth(y, m + 1) == DaysBeforeMonth(y, m) + MonthLength(y, m)
  {
  }

  lemma YearStep(y: int)
    ensures DaysBeforeYear(y + 1) == DaysBeforeYear(y) + YearLength(y)
    ensures DaysBeforeMonth(y, 12) == YearLength(y)
  {
  }

  /** The year-by-year count agrees with the usual closed form of leap-year rules. */
  lemma {:induction false} DaysBeforeYearFormula(y: int)
    ensures DaysBeforeYear(y) == 365 * (y - 1) + (y - 1) / 4 - (y - 1) / 100 + (y - 1) / 400
    decreases if y >= 1 then y - 1 else 1 - y
  {
    if y > 1 {
      DaysBeforeYearFormula(y - 1);
      LeapCount(y - 1);
      assert y - 2 == (y - 1) - 1;
    } else if y < 1 {
      DaysBeforeYearFormula(y + 1);
      LeapCount(y);
    }
  }

  lemma LeapCount(y: int)
    ensures y / 4 - (y - 1) / 4 == if y % 4 == 0 then 1 else 0
    ensures y / 100 - (y - 1) / 100 == if y % 100 == 0 then 1 else 0
    ensures y / 400 - (y - 1) / 400 == if y % 400 == 0 then 1 else 0
    ensures YearLength(y) == 365 + (y / 4 - (y - 1) / 4) - (y / 100 - (y - 1) / 100) + (y / 400 - (y - 1) / 400)
  {
    if y % 400 == 0 {
      assert y == 400 * (y / 400);
      assert y == 100 * (4 * (y / 400));
      assert y == 4 * (100 * (y / 400));
    } else if y % 100 == 0 {
      assert y == 100 * (y / 100);
      assert y == 4 * (25 * (y / 100));
    }
  }

  /** The previous and the next calendar month of (year, month). */
  function PrevOf(year: int, month: int): (int, int) {
    if month == 0 then (year - 1, 11) else (year, month - 1)
  }

  function NextOf(year: int, month: int): (int, int) {
    if month == 11 then (year + 1, 0) else (year, month + 1)
  }

  /** The first of the next month comes right after the last day of this month. */
  lemma NextFirstDay(y: int, m: int)
    requires 0 <= m < 12
    ensures DayNumber(Date(NextOf(y, m).0, NextOf(y, m).1, 1)) == DayNumber(Date(y, m, 1)) + MonthLength(y, m)
  {
    var here := DayNumber(Date(y, m, 1));
    assert here == DaysBeforeYear(y) + DaysBeforeMonth(y, m);
    if m == 11 {
      YearStep(y);
      MonthStep(y, 11);
      assert NextOf(y, m) == (y + 1, 0);
      assert DayNumber(Date(y + 1, 0, 1)) == DaysBeforeYear(y + 1);
    } else {
      MonthStep(y, m);
      assert NextOf(y, m) == (y, m + 1);
      assert DayNumber(Date(y, m + 1, 1)) == DaysBeforeYear(y) + DaysBeforeMonth(y, m + 1);
    }
  }

  /**
   * Moves day d (any integer) of month m into range month by month, as the
   * `Date` constructor does with an overflowing or non-positive day.
   */
  function Normalize(y: int, m: int, d: int): (r: Date)
    requires 0 <= m < 12
    ensures ValidDate(r)
    ensures DayNumber(r) == DayNumber(Date(y, m, 1)) + d - 1
    decreases if d < 1 then 32 - d else d
  {
    if d < 1 then
      var py := PrevOf(y, m).0;
      var pm := PrevOf(y, m).1;
      assert NextOf(py, pm) == (y, m);
      NextFirstDay(py, pm);
      var len := MonthLength(py, pm);
      assert 28 <= len <= 31;
      Normalize(py, pm, d + len)
    else if d > MonthLength(y, m) then
      var ny := NextOf(y, m).0;
      var nm := NextOf(y, m).1;
      NextFirstDay(y, m);
      var len := MonthLength(y, m);
      assert 28 <= len <= 31;
      Normalize(ny, nm, d - len)
    else
      Date(y, m, d)
  }

  /** The `Date` constructor maps years 0..99 to 1900..1999. */
  function FullYear(y: int): int {
    if 0 <= y <= 99 then 1900 + y else y
  }

  /**
   * `new Date(y, m, d)` at local midnight for integer arguments: the year is
   * widened, the month may run past either end of the year, the day past
   * either end of the month.
   */
  function MakeDay(y: int, m: int, d: int): (r: Date)
    ensures ValidDate(r)
    ensures DayNumber(r) == DayNumber(Date(FullYear(y) + m / 12, m % 12, 1)) + d - 1
  {
    Normalize(FullYear(y) + m / 12, m % 12, d)
  }

  /** A valid day with a year outside 0..99 is built as it is written. */
  lemma MakeDayOfValid(y: int, m: int, d: int)
    requires ValidDate(Date(y, m, d)) && !(0 <= y <= 99)
    ensures MakeDay(y, m, d) == Date(y, m, d)
  {
    assert m / 12 == 0 && m % 12 == m;
    BeforeIffDayNumber(MakeDay(y, m, d), Date(y, m, d));
  }

  lemma ModShift(n: int)
    ensures (if (n + 1) % 7 == 0 then 6 else (n + 1) % 7 - 1) == n % 7
  {
  }

  lemma ModAdd(a: int, b: int)
    ensures (a % 7 + b) % 7 == (a + b) % 7
  {
    assert a == 7 * (a / 7) + a % 7;
  }

  lemma DayNumberInYear(d: Date)
    requires ValidDate(d)
    ensures DaysBeforeYear(d.year) <= DayNumber(d) < DaysBeforeYear(d.year) + YearLength(d.year)
  {
    YearStep(d.year);
    MonthStep(d.year, d.month);
    assert DaysBeforeMonth(d.year, d.month + 1) <= DaysBeforeMonth(d.year, 12);
  }

  lemma {:induction false} YearsIncrease(y1: int, y2: int)
    requires y1 < y2
    ensures DaysBeforeYear(y1) + YearLength(y1) <= DaysBeforeYear(y2)
    decreases y2 - y1
  {
    YearStep(y1);
    if y1 + 1 < y2 {
      YearsIncrease(y1 + 1, y2);
    }
  }

  /** Timestamp order is calendar order: a day comes first exactly when its number is smaller. */
  lemma BeforeIffDayNumber(a: Date, b: Date)
    requires ValidDate(a) && ValidDate(b)
    ensures Before(a, b) <==> DayNumber(a) < DayNumber(b)
    ensures a == b <==> DayNumber(a) == DayNumber(b)
  {
    if a.year != b.year {
      DayNumberInYear(a);
      DayNumberInYear(b);
      if a.year < b.year {
        YearsIncrease(a.year, b.year);
      } else {
        YearsIncrease(b.year, a.year);
      }
    } else if a.month != b.month {
      var (lo, hi) := if a.month < b.month then (a, b) else (b, a);
      MonthStep(lo.year, lo.month);
      assert DaysBeforeMonth(lo.year, lo.month + 1) <= DaysBeforeMonth(hi.year, hi.month);
    }
  }

  /** `new Date(year, month + 1, 0).getDate()`: the day before the first of the next month. */
  function GetDaysInMonth(year: int, month: int): (n: int)
    requires 0 <= month < 12
    ensures n == MonthLength(FullYear(year), month)
    ensures 28 <= n <= 31
    ensures n == 29 <==> month == 1 && IsLeapYear(FullYear(year))
  {
    var last := MakeDay(year, month + 1, 0);
    var y := FullYear(year);
    var expected := Date(y, month, MonthLength(y, month));
    NextFirstDay(y, month);
    BeforeIffDayNumber(last, expected);
    last.day
  }

  /** `getDay()`: 0 for Sunday through 6 for Saturday. */
  function Weekday(d: Date): (w: int)
    requires 0 <= d.month < 12
    ensures 0 <= w < 7
  {
    (DayNumber(d) + 1) % 7
  }

  /** `getStartDayOfMonth`: the weekday of the first, renumbered Monday = 0 .. Sunday = 6. */
  function StartDayOfMonth(year: int, month: int): (r: int)
    requires 0 <= month < 12
    ensures 0 <= r <= 6
    ensures r == DayNumber(MakeDay(year, month, 1)) % 7
    ensures (r + 1) % 7 == Weekday(MakeDay(year, month, 1))
  {
    var first := MakeDay(year, month, 1);
    var n := DayNumber(first);
    ModShift(n);
    ModAdd(n, 1);
    var day := Weekday(first);
    assert day == (n + 1) % 7;
    if day == 0 then 6 else day - 1
  }

  /** One month back: `new Date(v.getFullYear(), v.getMonth() - 1, 1)`. */
  function PrevMonth(v: Date): (r: Date)
    requires 0 <= v.month < 12
    ensures ValidDate(r) && r.day == 1
    ensures !(0 <= v.year <= 99) ==> r == Date(PrevOf(v.year, v.month).0, PrevOf(v.year, v.month).1, 1)
  {
    MakeDay(v.year, v.month - 1, 1)
  }

  /** One month on: `new Date(v.getFullYear(), v.getMonth() + 1, 1)`. */
  function NextMonth(v: Date): (r: Date)
    requires 0 <= v.month < 12
    ensures ValidDate(r) && r.day == 1
    ensures !(0 <= v.year <= 99) ==> r == Date(NextOf(v.year, v.month).0, NextOf(v.year, v.month).1, 1)
  {
    MakeDay(v.year, v.month + 1, 1)
  }

  /** Navigating forward and back returns to the month shown. */
  lemma NavigationInverse(v: Date)
    requires ValidDate(v) && v.day == 1 && !(-1 <= v.year <= 100)
    ensures PrevMonth(NextMonth(v)) == v
    ensures NextMonth(PrevMonth(v)) == v
  {
    var n := NextMonth(v);
    assert n == Date(NextOf(v.year, v.month).0, NextOf(v.year, v.month).1, 1);
    assert PrevOf(n.year, n.month) == (v.year, v.month);
    var p := PrevMonth(v);
    assert p == Date(PrevOf(v.year, v.month).0, PrevOf(v.year, v.month).1, 1);
    assert NextOf(p.year, p.month) == (v.year, v.month);
  }

  /** The first of the month of d: `new Date(d.getFullYear(), d.getMonth(), 1)`. */
  function FirstOfMonth(d: Date): (r: Date)
    requires 0 <= d.month < 12
    ensures ValidDate(r) && r.day == 1
    ensures !(0 <= d.year <= 99) ==> r == Date(d.year, d.month, 1)
  {
    MakeDay(d.year, d.month, 1)
  }

  /**
   * The cells `renderMonth` lays out in a seven-column grid: one blank per
   * weekday before the first, then `new Date(year, month, day)` for each day.
   */
  function MonthGrid(year: int, month: int): (cells: seq<Option<Date>>)
    requires 0 <= month < 12
  {
    var offset := StartDayOfMonth(year, month);
    var count := GetDaysInMonth(year, month);
    seq(offset, _ => None) + seq(count, i => Some(MakeDay(year, month, i + 1)))
  }

  /**
   * For any year the `Date` constructor does not widen, the grid shows each
   * day of the month once, in order, and in the column of its Monday-first
   * weekday.
   */
  lemma GridColumns(year: int, month: int, k: int)
    requires 0 <= month < 12 && !(0 <= year <= 99)
    requires 0 <= k < |MonthGrid(year, month)|
    ensures |MonthGrid(year, month)| == StartDayOfMonth(year, month) + MonthLength(year, month)
    ensures k < StartDayOfMonth(year, month) <==> MonthGrid(year, month)[k].None?
    ensures MonthGrid(year, month)[k].Some? ==>
      var d := MonthGrid(year, month)[k].value;
      d == Date(year, month, k - StartDayOfMonth(year, month) + 1) && k % 7 == DayNumber(d) % 7
  {
    var offset := StartDayOfMonth(year, month);
    var cells := MonthGrid(year, month);
    var first := MakeDay(year, month, 1);
    MakeDayOfValid(year, month, 1);
    if k >= offset {
      var day := k - offset + 1;
      assert cells[k] == Some(MakeDay(year, month, day));
      MakeDayOfValid(year, month, day);
      var n := DayNumber(first);
      assert DayNumber(Date(year, month, day)) == n + day - 1;
      assert offset == n % 7;
      ModAdd(n, day - 1);
    }
  }

  /** The grid of the next month starts in the column where this month's grid left off. */
  lemma ConsecutiveMonths(year: int, month: int)
    requires 0 <= month < 12 && !(0 <= year <= 99) && !(0 <= NextOf(year, month).0 <= 99)
    ensures var next := NextMonth(Date(year, month, 1));
      StartDayOfMonth(next.year, next.month) == (StartDayOfMonth(year, month) + GetDaysInMonth(year, month)) % 7
  {
    var next := NextMonth(Date(year, month, 1));
    NextFirstDay(year, month);
    MakeDayOfValid(next.year, next.month, 1);
    MakeDayOfValid(year, month, 1);
    var n := DayNumber(Date(year, month, 1));
    var len := GetDaysInMonth(year, month);
    assert DayNumber(next) == n + len;
    assert StartDayOfMonth(year, month) == n % 7;
    assert StartDayOfMonth(next.year, next.month) == (n + len) % 7;
    ModAdd(n, len);
  }

  /** 1 January 1970 was a Thursday, as `new Date(1970, 0, 1).getDay()` reports. */
  lemma EpochWeekday()
    ensures Weekday(Date(1970, 0, 1)) == 4
  {
    DaysBeforeYearFormula(1970);
    assert DaysBeforeYear(1970) == 719162;
    assert DayNumber(Date(1970, 0, 1)) == 719162;
  }
}
