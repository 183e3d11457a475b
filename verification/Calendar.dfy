/**
 * The proleptic Gregorian calendar, as section 21.4.1 of ECMA-262 defines it for UTC dates.
 * Days are counted from 1 January 1970.
 */
module Calendar {

  predicate IsLeap(y: int) {
    y % 4 == 0 && (y % 100 != 0 || y % 400 == 0)
  }

  function YearLength(y: int): int {
    if IsLeap(y) then 366 else 365
  }

  /** The day number of 1 January of year `y`. */
  function DayFromYear(y: int): int {
    365 * (y - 1970) + (y - 1969) / 4 - (y - 1901) / 100 + (y - 1601) / 400
  }

  /** Days of the year before the first of month `m`; `m` is 1 to 13. */
  function DaysBefore(leap: bool, m: int): (d: int)
    requires 1 <= m <= 13
  {
    (if m == 1 then 0 else if m == 2 then 31 else if m == 3 then 59 else if m == 4 then 90
     else if m == 5 then 120 else if m == 6 then 151 else if m == 7 then 181 else if m == 8 then 212
     else if m == 9 then 243 else if m == 10 then 273 else if m == 11 then 304 else if m == 12 then 334
     else 365) + if leap && m > 2 then 1 else 0
  }

  function MonthLength(leap: bool, m: int): (n: int)
    requires 1 <= m <= 12
    ensures 28 <= n <= 31
  {
    DaysBefore(leap, m + 1) - DaysBefore(leap, m)
  }

  /** `(y, m, d)` is a date that exists. */
  predicate IsDate(y: int, m: int, d: int) {
    1 <= m <= 12 && 1 <= d <= MonthLength(IsLeap(y), m)
  }

  // ----- Years -----

  lemma Carry4(y: int)
    ensures (y - 1968) / 4 - (y - 1969) / 4 == if y % 4 == 0 then 1 else 0
  {
    assert (y - 1968) / 4 == y / 4 - 492;
  }

  lemma Carry100(y: int)
    ensures (y - 1900) / 100 - (y - 1901) / 100 == if y % 100 == 0 then 1 else 0
  {
    assert (y - 1900) / 100 == y / 100 - 19;
  }

  lemma Carry400(y: int)
    ensures (y - 1600) / 400 - (y - 1601) / 400 == if y % 400 == 0 then 1 else 0
  {
    assert (y - 1600) / 400 == y / 400 - 4;
  }

  lemma TimesFour(k: int)
    ensures (4 * k) % 4 == 0
  {
  }

  lemma TimesHundred(k: int)
    ensures (100 * k) % 100 == 0
  {
  }

  lemma CenturyIsFourth(y: int)
    ensures y % 100 == 0 ==> y % 4 == 0
  {
    if y % 100 == 0 {
      TimesFour(25 * (y / 100));
      assert y == 4 * (25 * (y / 100));
    }
  }

  lemma FourthCenturyIsCentury(y: int)
    ensures y % 400 == 0 ==> y % 100 == 0
  {
    if y % 400 == 0 {
      TimesHundred(4 * (y / 400));
      assert y == 100 * (4 * (y / 400));
    }
  }

  lemma NextYear(y: int)
    ensures DayFromYear(y + 1) == DayFromYear(y) + YearLength(y)
  {
    Carry4(y);
    Carry100(y);
    Carry400(y);
    CenturyIsFourth(y);
    FourthCenturyIsCentury(y);
  }

  lemma YearsApart(y1: int, y2: int)
    requires y1 <= y2
    ensures DayFromYear(y2) >= DayFromYear(y1) + 365 * (y2 - y1)
    decreases y2 - y1
  {
    if y1 < y2 {
      NextYear(y1);
      YearsApart(y1 + 1, y2);
    }
  }

  function YearFrom(day: int, y: int): (r: int)
    requires DayFromYear(y) <= day
    ensures DayFromYear(r) <= day < DayFromYear(r + 1)
    decreases day - DayFromYear(y)
  {
    NextYear(y);
    if day < DayFromYear(y + 1) then y else YearFrom(day, y + 1)
  }

  /** The year a day falls in: the last whose first day is not after it. */
  function YearFromDay(day: int): (y: int)
    ensures DayFromYear(y) <= day < DayFromYear(y + 1)
  {
    YearFrom(day, 1969 + if day >= 0 then day / 366 else day / 365)
  }

  lemma YearUnique(day: int, y: int)
    requires DayFromYear(y) <= day < DayFromYear(y + 1)
    ensures y == YearFromDay(day)
  {
    hide DayFromYear;
    var r := YearFromDay(day);
    if y < r {
      YearsApart(y + 1, r);
    } else if r < y {
      YearsApart(r + 1, y);
    }
  }

  // ----- Months and dates -----

  function MonthFrom(leap: bool, dayInYear: int, m: int): (r: int)
    requires 1 <= m <= 12 && DaysBefore(leap, m) <= dayInYear < DaysBefore(leap, 13)
    ensures 1 <= r <= 12 && DaysBefore(leap, r) <= dayInYear < DaysBefore(leap, r + 1)
    decreases 12 - m
  {
    if dayInYear < DaysBefore(leap, m + 1) then m else MonthFrom(leap, dayInYear, m + 1)
  }

  function DayWithinYear(day: int): (d: int)
    ensures 0 <= d < YearLength(YearFromDay(day))
  {
    NextYear(YearFromDay(day));
    day - DayFromYear(YearFromDay(day))
  }

  lemma YearEnds(y: int)
    ensures DaysBefore(IsLeap(y), 1) == 0 && DaysBefore(IsLeap(y), 13) == YearLength(y)
  {
  }

  /** 1 is January. */
  function MonthFromDay(day: int): (m: int)
    ensures 1 <= m <= 12
    ensures DaysBefore(IsLeap(YearFromDay(day)), m) <= DayWithinYear(day)
            < DaysBefore(IsLeap(YearFromDay(day)), m + 1)
  {
    hide DayFromYear, DaysBefore, IsLeap, YearFromDay;
    var y := YearFromDay(day);
    assert DaysBefore(IsLeap(y), 1) == 0 && DaysBefore(IsLeap(y), 13) == YearLength(y) by {
      YearEnds(y);
    }
    MonthFrom(IsLeap(YearFromDay(day)), DayWithinYear(day), 1)
  }

  function DateFromDay(day: int): (d: int)
    ensures 1 <= d <= 31
  {
    var leap, m := IsLeap(YearFromDay(day)), MonthFromDay(day);
    assert MonthLength(leap, m) <= 31;
    DayWithinYear(day) - DaysBefore(leap, m) + 1
  }

  /** 0 is Sunday. */
  function WeekDay(day: int): (w: int)
    ensures 0 <= w <= 6
  {
    (day + 4) % 7
  }

  /** `MakeDay`: months count from 0 and carry into the year; any date number is accepted. */
  function MakeDay(year: int, month: int, date: int): int {
    var y := year + month / 12;
    DayFromYear(y) + DaysBefore(IsLeap(y), month % 12 + 1) + date - 1
  }

  /** `Date.UTC` on whole days: a year of at most two digits means the twentieth century. */
  function DateUTC(year: int, month: int, date: int): int {
    MakeDay(if 0 <= year <= 99 then 1900 + year else year, month, date)
  }

  // ----- The two directions agree -----

  lemma DaysBeforeMonotone(leap: bool, m1: int, m2: int)
    requires 1 <= m1 <= m2 <= 13
    ensures DaysBefore(leap, m1) <= DaysBefore(leap, m2)
    decreases m2 - m1
  {
    if m1 < m2 {
      DaysBeforeMonotone(leap, m1 + 1, m2);
    }
  }

  lemma MonthIndex(m: int)
    requires 1 <= m <= 12
    ensures (m - 1) / 12 == 0 && (m - 1) % 12 == m - 1
  {
  }

  /** Reading a day as a date and counting back gives the day. */
  lemma DateOfDay(day: int)
    ensures IsDate(YearFromDay(day), MonthFromDay(day), DateFromDay(day))
    ensures MakeDay(YearFromDay(day), MonthFromDay(day) - 1, DateFromDay(day)) == day
  {
    hide DayFromYear, DaysBefore, YearFromDay, MonthFromDay;
    MonthIndex(MonthFromDay(day));
  }

  /** Every existing date is the reading of the day it counts to. */
  lemma DayOfDate(y: int, m: int, d: int)
    requires IsDate(y, m, d)
    ensures var day := MakeDay(y, m - 1, d);
            YearFromDay(day) == y && MonthFromDay(day) == m && DateFromDay(day) == d
  {
    hide DayFromYear;
    var day := MakeDay(y, m - 1, d);
    MonthIndex(m);
    DaysBeforeMonotone(IsLeap(y), m + 1, 13);
    NextYear(y);
    YearUnique(day, y);
    var r := MonthFromDay(day);
    if r < m {
      DaysBeforeMonotone(IsLeap(y), r + 1, m);
    } else if m < r {
      DaysBeforeMonotone(IsLeap(y), m + 1, r);
    }
  }

  // ----- Days of the week -----

  /** Sakamoto's table: how far the first of a month is shifted from the year's, February last. */
  const MONTH_SHIFT: seq<int> := [0, 3, 2, 5, 0, 3, 5, 1, 4, 6, 2, 4]

  /** The weekday of a date by Sakamoto's rule, which counts years from March on; 0 is Sunday. */
  function WeekDayOfDate(y: int, m: int, d: int): int
    requires 1 <= m <= 12
  {
    var n := if m < 3 then y - 1 else y;
    (n + n / 4 - n / 100 + n / 400 + MONTH_SHIFT[m - 1] + d) % 7
  }

  lemma LeapDaysBefore(y: int)
    ensures DayFromYear(y) == 365 * (y - 1970) + (y - 1) / 4 - (y - 1) / 100 + (y - 1) / 400 - 477
    ensures y / 4 - y / 100 + y / 400
            == (y - 1) / 4 - (y - 1) / 100 + (y - 1) / 400 + if IsLeap(y) then 1 else 0
  {
    assert (y - 1969) / 4 == (y - 1) / 4 - 492;
    assert (y - 1901) / 100 == (y - 1) / 100 - 19;
    assert (y - 1601) / 400 == (y - 1) / 400 - 4;
    Carry4(y);
    Carry100(y);
    Carry400(y);
    CenturyIsFourth(y);
    FourthCenturyIsCentury(y);
  }

  lemma ShiftIsWholeWeeks(m: int)
    requires 1 <= m <= 12
    ensures var base := DaysBefore(false, m) - MONTH_SHIFT[m - 1];
            if m < 3 then base % 7 == 0 else (base - 1) % 7 == 0
  {
  }

  lemma SameWeekDay(a: int, b: int, weeks: int)
    requires a == b + 7 * weeks
    ensures a % 7 == b % 7
  {
  }

  /** The weekday counted from day numbers is the one the date's own numbers give, for every date. */
  lemma WeekDayIsOfDate(y: int, m: int, d: int)
    requires 1 <= m <= 12
    ensures WeekDay(MakeDay(y, m - 1, d)) == WeekDayOfDate(y, m, d)
  {
    hide DayFromYear, IsLeap;
    MonthIndex(m);
    LeapDaysBefore(y);
    ShiftIsWholeWeeks(m);
    assert DaysBefore(IsLeap(y), m) == DaysBefore(false, m) + if IsLeap(y) && m > 2 then 1 else 0;
    hide DaysBefore;
    var shift := MONTH_SHIFT[m - 1];
    var base := DaysBefore(false, m) - shift;
    if m < 3 {
      var n := y - 1;
      SameWeekDay(MakeDay(y, m - 1, d) + 4, n + n / 4 - n / 100 + n / 400 + shift + d, 52 * y - 102789 + base / 7);
    } else {
      SameWeekDay(MakeDay(y, m - 1, d) + 4, y + y / 4 - y / 100 + y / 400 + shift + d,
                  52 * y - 102789 + (base - 1) / 7);
    }
  }

  /** 1 January 1970 was a Thursday, and each day's weekday is the next after the day before's. */
  lemma WeekGoesRound(day: int)
    ensures WeekDay(MakeDay(1970, 0, 1)) == 4
    ensures WeekDay(day + 1) == if WeekDay(day) == 6 then 0 else WeekDay(day) + 1
  {
    hide MakeDay;
    FirstDay();
    NextOfSeven(day + 4);
    assert day + 1 + 4 == (day + 4) + 1;
  }

  lemma FirstDay()
    ensures MakeDay(1970, 0, 1) == 0
  {
  }

  lemma NextOfSeven(a: int)
    ensures (a + 1) % 7 == if a % 7 == 6 then 0 else a % 7 + 1
  {
  }

  /**
   * Asking for the date after a day's own, month ends included, gives the next day: exactly in
   * the years `Date.UTC` does not take for twentieth-century ones.
   */
  lemma NextDate(day: int)
    ensures DateUTC(YearFromDay(day), MonthFromDay(day) - 1, DateFromDay(day) + 1) == day + 1
            <==> !(0 <= YearFromDay(day) <= 99)
    ensures DateUTC(YearFromDay(day), MonthFromDay(day) - 1, DateFromDay(day) + 1) >= day + 1
  {
    DateOfDay(day);
    DateAfter(YearFromDay(day), MonthFromDay(day), DateFromDay(day));
  }

  /** Years of one or two digits are taken for those of the twentieth century, all others as they are. */
  lemma TwoDigitYears(y: int, m: int, d: int)
    requires var shown := if 0 <= y <= 99 then 1900 + y else y; IsDate(shown, m, d)
    ensures var day := DateUTC(y, m - 1, d);
            && YearFromDay(day) == (if 0 <= y <= 99 then 1900 + y else y)
            && MonthFromDay(day) == m && DateFromDay(day) == d
  {
    hide IsDate, MakeDay, YearFromDay, MonthFromDay, DateFromDay;
    DayOfDate(if 0 <= y <= 99 then 1900 + y else y, m, d);
  }

  lemma DateAfter(y: int, m: int, d: int)
    requires 1 <= m <= 12
    ensures DateUTC(y, m - 1, d + 1) == MakeDay(y, m - 1, d) + 1 <==> !(0 <= y <= 99)
    ensures DateUTC(y, m - 1, d + 1) >= MakeDay(y, m - 1, d) + 1
  {
    assert MakeDay(y, m - 1, d + 1) == MakeDay(y, m - 1, d) + 1;
    if 0 <= y <= 99 {
      CenturiesApart(y, m, d + 1);
    }
  }

  /** A date of a later century counts to a later day. */
  lemma CenturiesApart(y: int, m: int, d: int)
    requires 1 <= m <= 12
    ensures MakeDay(y, m - 1, d) < MakeDay(1900 + y, m - 1, d)
  {
    MonthIndex(m);
    YearsApart(y, 1900 + y);
  }

  // ----- Dates shown and read back -----

  /** The year a formatter shows when it leaves the era out: the year 0 is 1 BC and shows as 1. */
  function ShownYear(y: int): int {
    if y >= 1 then y else 1 - y
  }

  /** A year of the era is shown as itself, and the `b`th before it, which is numbered `1 - b`, as `b`. */
  lemma YearsShown(y: int, b: int)
    ensures y >= 1 ==> ShownYear(y) == y
    ensures b >= 1 ==> ShownYear(1 - b) == b
  {
  }

  /** The day `Date.UTC` makes of the date shown for a day. */
  function ShownDay(day: int): int {
    DateUTC(ShownYear(YearFromDay(day)), MonthFromDay(day) - 1, DateFromDay(day))
  }

  /** A day is read back as itself from the year 100 on, and before it as one about two centuries later or more. */
  lemma ReadBack(day: int)
    ensures ShownDay(day) == day <==> day >= DayFromYear(100)
    ensures ShownDay(day) >= DayFromYear(100)
    ensures day < DayFromYear(100) ==> ShownDay(day) >= day + 365 * 198
  {
    hide DayFromYear, YearFromDay, MonthFromDay, DateFromDay, MakeDay;
    var (y, m, d) := (YearFromDay(day), MonthFromDay(day), DateFromDay(day));
    var s := if 0 <= ShownYear(y) <= 99 then 1900 + ShownYear(y) else ShownYear(y);
    DateOfDay(day);
    YearsApart(100, s);
    FromJanuary(s, m, d);
    if y >= 100 {
      YearsApart(100, y);
    } else {
      SameDateLater(y, s, m, d);
      YearsApart(y + 1, 100);
    }
  }

  /** The last year of those is shown as the year 99 and read back as 1999. */
  lemma YearNinetyNine(day: int)
    requires DayFromYear(99) <= day < DayFromYear(100)
    ensures ShownDay(day) >= day + 365 * 1900 - 1
  {
    hide DayFromYear, MonthFromDay, DateFromDay, MakeDay;
    YearUnique(day, 99);
    hide YearFromDay;
    DateOfDay(day);
    SameDateLater(99, 1999, MonthFromDay(day), DateFromDay(day));
  }

  /** A day more than a thousand years before the era is read back as one that long after it. */
  lemma LongAgo(day: int)
    requires day < DayFromYear(-1000)
    ensures ShownDay(day) >= DayFromYear(1000)
  {
    hide DayFromYear, YearFromDay, MonthFromDay, DateFromDay, MakeDay;
    var y := YearFromDay(day);
    if y >= -1000 {
      YearsApart(-1000, y);
    }
    YearsApart(1000, 1 - y);
    FromJanuary(1 - y, MonthFromDay(day), DateFromDay(day));
  }

  lemma FromJanuary(y: int, m: int, d: int)
    requires 1 <= m <= 12 && d >= 1
    ensures MakeDay(y, m - 1, d) >= DayFromYear(y)
  {
    MonthIndex(m);
  }

  lemma SameDateLater(y1: int, y2: int, m: int, d: int)
    requires 1 <= m <= 12 && y1 <= y2
    ensures MakeDay(y2, m - 1, d) >= MakeDay(y1, m - 1, d) + 365 * (y2 - y1) - 1
  {
    hide DayFromYear, IsLeap;
    MonthIndex(m);
    YearsApart(y1, y2);
  }
}
