/**
 * What the next-run search amounts to over many calls: which instants a schedule fires at, and
 * when the bounded search is sure to find one.
 */
module CronSchedule {
  import opened Calendar
  import opened CronSearch
  import opened Wrappers
  import opened Zone

  // ----- Iterating the search -----

  /** Each run is the search's answer from the one before it. */
  ghost predicate Runs(p: ParsedCron, z: Zone, from: int, runs: seq<int>)
    requires Bounded(z)
    decreases |runs|
  {
    |runs| > 0 ==> IsNextRun(p, z, from, runs[0]) && Runs(p, z, runs[0], runs[1..])
  }

  /** Some minute of the schedule resolves to this instant. */
  ghost predicate IsResolvedMinute(p: ParsedCron, z: Zone, instant: int)
    requires Bounded(z)
  {
    exists n :: Fires(p, n) && Resolve(z, n) == instant
  }

  /** Two answers from the same start are the same instant. */
  lemma NextRunUnique(p: ParsedCron, z: Zone, from: int, r1: int, r2: int)
    requires Bounded(z)
    requires IsNextRun(p, z, from, r1) && IsNextRun(p, z, from, r2)
    ensures r1 == r2
  {
    hide Fires, IsFirstReach;
    var n1 :| Fires(p, n1) && Resolve(z, n1) == r1;
    var n2 :| Fires(p, n2) && Resolve(z, n2) == r2;
  }

  /** Searching from later never answers earlier. */
  lemma NextRunMonotone(p: ParsedCron, z: Zone, from1: int, r1: int, from2: int, r2: int)
    requires Bounded(z)
    requires from1 <= from2
    requires IsNextRun(p, z, from1, r1) && IsNextRun(p, z, from2, r2)
    ensures r1 <= r2
  {
    hide Fires, IsFirstReach;
    var n2 :| Fires(p, n2) && Resolve(z, n2) == r2;
  }

  /**
   * Iterating the search gives strictly increasing instants, and exactly the instants at which
   * some minute of the schedule resolves: none is missed and none fires twice.
   */
  lemma {:induction false} RunsAreTheResolvedMinutes(p: ParsedCron, z: Zone, from: int, runs: seq<int>)
    requires Bounded(z)
    requires Runs(p, z, from, runs)
    ensures forall j, k :: 0 <= j < k < |runs| ==> runs[j] < runs[k]
    ensures forall i :: i in runs ==> i > from
    ensures |runs| > 0 ==>
              forall i :: from < i <= runs[|runs| - 1] ==> (i in runs <==> IsResolvedMinute(p, z, i))
    decreases |runs|
  {
    hide Fires, IsFirstReach;
    if |runs| > 0 {
      var first, rest := runs[0], runs[1..];
      assert runs == [first] + rest;
      RunsAreTheResolvedMinutes(p, z, first, rest);
      forall i | from < i <= runs[|runs| - 1]
        ensures i in runs <==> IsResolvedMinute(p, z, i)
      {
        if i > first {
          assert i in runs <==> i in rest;
        } else {
          assert i in rest ==> i > first;
          FirstRun(p, z, from, first, i);
        }
      }
      assert forall j :: 0 <= j < |rest| ==> rest[j] in rest;
    }
  }

  /** Up to the first run, it alone is a resolved minute. */
  lemma FirstRun(p: ParsedCron, z: Zone, from: int, first: int, i: int)
    requires Bounded(z)
    requires IsNextRun(p, z, from, first)
    requires from < i <= first
    ensures IsResolvedMinute(p, z, i) <==> i == first
  {
    if IsResolvedMinute(p, z, i) {
      var n :| Fires(p, n) && Resolve(z, n) == i;
    }
  }

  /**
   * A minute the clock shows fires at exactly one of the runs that pass over it, at the first
   * instant showing it; the second pass of a repeated hour adds nothing.
   */
  lemma ShownMinuteFiresOnce(p: ParsedCron, z: Zone, from: int, runs: seq<int>, n: int)
    requires WellFormed(z)
    requires Runs(p, z, from, runs) && |runs| > 0
    requires Fires(p, n) && Shown(z, n)
    requires from < Resolve(z, n) <= runs[|runs| - 1]
    ensures exists k :: 0 <= k < |runs| && runs[k] == Resolve(z, n)
                        && Local(z, runs[k]) == n
                        && (forall i :: Local(z, i) == n ==> runs[k] <= i)
                        && (forall j :: 0 <= j < |runs| && runs[j] == runs[k] ==> j == k)
  {
    hide Fires, IsFirstReach;
    RunsAreTheResolvedMinutes(p, z, from, runs);
    assert IsResolvedMinute(p, z, Resolve(z, n));
    ResolveShown(z, n);
    var k :| 0 <= k < |runs| && runs[k] == Resolve(z, n);
    assert forall j :: 0 <= j < |runs| && runs[j] == runs[k] ==> j == k;
  }

  /** All the minutes one jump forward swallows share a single run, at the jump. */
  lemma GapFiresOnce(p: ParsedCron, z: Zone, from: int, runs: seq<int>, n1: int, n2: int)
    requires WellFormed(z)
    requires Runs(p, z, from, runs) && |runs| > 0
    requires Fires(p, n1) && Fires(p, n2)
    requires !Shown(z, n1) && n1 <= n2 < Local(z, Resolve(z, n1))
    requires from < Resolve(z, n1) <= runs[|runs| - 1]
    ensures exists k :: 0 <= k < |runs| && runs[k] == Resolve(z, n1) == Resolve(z, n2)
                        && z(runs[k] - 1) < z(runs[k])
                        && (forall j :: 0 <= j < |runs| && runs[j] == runs[k] ==> j == k)
  {
    hide Fires, IsFirstReach;
    RunsAreTheResolvedMinutes(p, z, from, runs);
    assert IsResolvedMinute(p, z, Resolve(z, n1));
    ResolveGap(z, n1);
    GapCoalesces(z, n1, n2);
    var k :| 0 <= k < |runs| && runs[k] == Resolve(z, n1);
    assert forall j :: 0 <= j < |runs| && runs[j] == runs[k] ==> j == k;
  }

  // ----- When the search must succeed -----

  /** What an accepted expression guarantees about its value sets. */
  ghost predicate Usable(p: ParsedCron) {
    && (exists h :: h in p.hours && 0 <= h <= 23)
    && (exists m :: m in p.minutes && 0 <= m <= 59)
    && (!p.dayOfMonthRestricted ==> forall d :: 1 <= d <= 31 ==> d in p.daysOfMonth)
    && (!p.dayOfWeekRestricted ==> forall w :: 0 <= w <= 6 ==> w in p.daysOfWeek)
  }

  /** Some day of the calendar matches. */
  ghost predicate AdmitsDate(p: ParsedCron) {
    exists day :: MatchesDate(p, day)
  }

  predicate IsLeapDay(day: int) {
    MonthFromDay(day) == 2 && DateFromDay(day) == 29
  }

  /** Some day other than a 29 February matches. */
  ghost predicate AdmitsOrdinary(p: ParsedCron) {
    exists day :: MatchesDate(p, day) && !IsLeapDay(day)
  }

  /** The wall clock comes to `n` only after `from`; far enough ahead of the start it must. */
  ghost predicate NotYet(z: Zone, from: int, n: int) {
    n >= Start(z, from) + 2 * MAX_OFFSET || forall i :: i <= from ==> Local(z, i) < n
  }

  /** 29 February of a leap year, at a time of day. */
  function LeapMinute(y: int, h: int, m: int): int {
    OnDay(DayFromYear(y) + 59, h, m)
  }

  /** A scheduled time of a 29 February inside the window. */
  ghost predicate LeapTime(p: ParsedCron, z: Zone, from: int, y: int, h: int, m: int) {
    && IsLeap(y) && h in p.hours && 0 <= h <= 23 && m in p.minutes && 0 <= m <= 59
    && Start(z, from) <= LeapMinute(y, h, m) < Start(z, from) + 1462 * MS_DAY
    && NotYet(z, from, LeapMinute(y, h, m))
  }

  ghost predicate LeapInWindow(p: ParsedCron, z: Zone, from: int) {
    exists y, h, m :: LeapTime(p, z, from, y, h, m)
  }

  /** No 1 March that follows a skipped leap day (1900, 2100, ...) lies in the window. */
  ghost predicate NoSkippedLeapDay(day: int) {
    forall y :: y % 4 == 0 && !IsLeap(y) ==> !(day < MakeDay(y, 2, 1) <= day + SEARCH_DAYS)
  }

  /** No transition sets the clock back by more than a day. */
  ghost predicate SmallStepsBack(z: Zone) {
    forall i, j {:trigger ShortSpan(i, i, j)} :: ShortSpan(i, i, j) ==> z(i) - z(j) <= MS_DAY
  }

  /** A time of day on a given day. */
  function OnDay(day: int, h: int, m: int): int {
    day * MS_DAY + h * MS_HOUR + m * MS_MINUTE
  }

  lemma OnDayReads(day: int, h: int, m: int)
    requires 0 <= h <= 23 && 0 <= m <= 59
    ensures var n := OnDay(day, h, m);
            WholeMinute(n) && DayOf(n) == day && HourOf(n) == h && MinuteOf(n) == m
    ensures day * MS_DAY <= OnDay(day, h, m) < (day + 1) * MS_DAY
  {
    var n := OnDay(day, h, m);
    assert n == (1440 * day + 60 * h + m) * MS_MINUTE;
    Multiple(1440 * day + 60 * h + m, MS_MINUTE);
    assert n / MS_MINUTE == 1440 * day + 60 * h + m;
    assert n / MS_HOUR == 24 * day + h;
    assert n / MS_DAY == day;
  }

  /** Every whole minute is a time of day on its day. */
  lemma OnItsDay(n: int)
    requires WholeMinute(n)
    ensures n == OnDay(DayOf(n), HourOf(n), MinuteOf(n))
  {
    var k := n / MS_MINUTE;
    assert n == k * MS_MINUTE;
    assert n / MS_HOUR == k / 60 && n / MS_DAY == k / 60 / 24;
  }

  lemma StartIsAhead(z: Zone, from: int)
    requires WellFormed(z)
    ensures Start(z, from) > Local(z, from)
    ensures Reading(z, from) < YEAR_100 ==> Start(z, from) > Local(z, from) + 198 * 365 * MS_DAY
  {
    hide AsUTC, DayFromYear;
    assert Aligned(z, from);
    var s := from / 1000;
    var k := z(from) / MS_MINUTE;
    assert z(from) == 1000 * (60 * k);
    var t := s + 60 * k;
    assert Reading(z, from) == 1000 * t;
    assert Start(z, from) > ToNaive(z, from);
    NextSecond(Start(z, from), t);
    if Reading(z, from) < YEAR_100 {
      NextSecond(Start(z, from), t + 198 * 365 * 86400);
    }
  }

  lemma NextSecond(n: int, t: int)
    requires WholeMinute(n) && n > 1000 * t
    ensures n >= 1000 * t + 1000
  {
    assert n == 1000 * (60 * (n / MS_MINUTE));
  }

  /** A reading a good day past the clock's own is not reached yet, whatever the offsets. */
  lemma ResolvesPast(z: Zone, from: int, n: int)
    requires Bounded(z)
    requires n >= Local(z, from) + 2 * MAX_OFFSET
    ensures Resolve(z, n) >= from
    ensures n > Local(z, from) + 2 * MAX_OFFSET ==> Resolve(z, n) > from
  {
  }

  /** From the start on, the clock comes to a reading only after `from` exactly when it resolves after `from`. */
  lemma NotYetIsAhead(z: Zone, from: int, n: int)
    requires WellFormed(z) && n >= Start(z, from)
    ensures NotYet(z, from, n) <==> Resolve(z, n) > from
  {
    hide Start, WholeMinuteOffsets, WholeMinuteTransitions, Isolated;
    StartIsAhead(z, from);
    if n >= Start(z, from) + 2 * MAX_OFFSET {
      ResolvesPast(z, from, n);
    }
  }

  /** A reading a full day past the start resolves after `from`. */
  lemma ResolvesAhead(z: Zone, from: int, n: int)
    requires WellFormed(z) && SmallStepsBack(z)
    requires n >= Start(z, from) + MS_DAY
    ensures Resolve(z, n) > from
  {
    StartIsAhead(z, from);
    var r := Resolve(z, n);
    if r <= from {
      assert ShortSpan(r, r, from);
      assert false;
    }
  }

  /** Dates that every year has come round within two years. */
  lemma DateInNextYear(day: int, m: int, d: int) returns (found: int)
    requires 1 <= m <= 12 && 1 <= d <= MonthLength(false, m)
    ensures day < found <= day + 2 * 366
    ensures MonthFromDay(found) == m && DateFromDay(found) == d
    ensures found == MakeDay(YearFromDay(day) + 1, m - 1, d)
  {
    hide DayFromYear;
    var y := YearFromDay(day) + 1;
    found := MakeDay(y, m - 1, d);
    assert d <= MonthLength(IsLeap(y), m);
    DayOfDate(y, m, d);
    NextYear(YearFromDay(day));
    NextYear(y);
    MonthIndex(m);
  }

  /** A month has each weekday within its first week, so some day soon has both. */
  lemma WeekdayInNextYear(day: int, m: int, w: int) returns (found: int)
    requires 1 <= m <= 12 && 0 <= w <= 6
    ensures day < found <= day + 2 * 366
    ensures MonthFromDay(found) == m && DateFromDay(found) <= 7 && WeekDay(found) == w
  {
    hide DayFromYear, MonthFromDay, DateFromDay;
    var first := DateInNextYear(day, m, 1);
    var k := (w - WeekDay(first)) % 7;
    assert MonthLength(false, m) >= 28;
    found := DateInNextYear(day, m, 1 + k);
    assert found == first + k;
    WeekdayAfter(first, w);
  }

  lemma WeekdayAfter(first: int, w: int)
    requires 0 <= w <= 6
    ensures WeekDay(first + (w - WeekDay(first)) % 7) == w
  {
    var a := first + 4;
    var d := w - a % 7;
    assert a + d % 7 == 7 * (a / 7 - d / 7) + w;
  }

  /** 29 February of a leap year. */
  lemma LeapDay(y: int)
    requires IsLeap(y)
    ensures MonthFromDay(DayFromYear(y) + 59) == 2 && DateFromDay(DayFromYear(y) + 59) == 29
  {
    DayOfDate(y, 2, 29);
  }

  /** The first multiple of four from `y0` on. */
  function NextFourth(y0: int): (y: int)
    ensures y % 4 == 0 && y0 <= y <= y0 + 3
  {
    y0 + (-y0) % 4
  }

  lemma FourYears(y: int)
    requires y % 4 == 0
    ensures DayFromYear(y + 4) == DayFromYear(y) + YearLength(y) + 1095
    ensures (y + 4) % 4 == 0
  {
    hide DayFromYear;
    NextYear(y);
    NextYear(y + 1);
    NextYear(y + 2);
    NextYear(y + 3);
    hide IsLeap;
    BetweenFourths(y);
  }

  lemma BetweenFourths(y: int)
    requires y % 4 == 0
    ensures !IsLeap(y + 1) && !IsLeap(y + 2) && !IsLeap(y + 3)
    ensures (y + 4) % 4 == 0
  {
    hide IsLeap;
    assert y == 4 * (y / 4);
    NotFourth(y + 1);
    NotFourth(y + 2);
    NotFourth(y + 3);
  }

  lemma NotFourth(y: int)
    requires y % 4 != 0
    ensures !IsLeap(y)
  {
  }

  /** A skipped leap day is not followed by another four years later. */
  lemma AfterSkipped(y: int)
    requires y % 4 == 0 && !IsLeap(y)
    ensures IsLeap(y + 4)
  {
    assert y == 100 * (y / 100);
    assert (y + 4) % 100 == 4;
  }

  lemma YearsAtMost(y1: int, y2: int)
    requires y1 <= y2 <= y1 + 3
    ensures DayFromYear(y2) <= DayFromYear(y1) + 1098
  {
    NextYear(y1);
    NextYear(y1 + 1);
    NextYear(y1 + 2);
  }

  lemma MarchFirst(y: int)
    requires !IsLeap(y)
    ensures MakeDay(y, 2, 1) == DayFromYear(y) + 59
  {
  }

  /**
   * A window without a skipped leap day holds a 29 February; when it is the window's first day,
   * the next one is its last.
   */
  lemma LeapDayInWindow(day: int) returns (y: int, later: int)
    requires NoSkippedLeapDay(day)
    ensures IsLeap(y) && day < DayFromYear(y) + 59 < day + SEARCH_DAYS
    ensures DayFromYear(y) + 59 == day + 1 ==> IsLeap(later) && DayFromYear(later) == DayFromYear(y) + 1461
  {
    hide DayFromYear, IsLeap, MakeDay;
    var y0 := YearFromDay(day + 1);
    y := NextFourth(y0);
    later := y + 4;
    YearsAtMost(y0, y);
    FourYears(y);
    if y0 < y {
      YearsApart(y0 + 1, y);
    }
    if !IsLeap(y) {
      MarchFirst(y);
      AfterSkipped(y);
      assert MakeDay(y, 2, 1) <= day;
      y := y + 4;
      YearsApart(y0 + 1, y);
    } else {
      if !IsLeap(later) {
        MarchFirst(later);
        assert !(day < MakeDay(later, 2, 1) <= day + SEARCH_DAYS);
      }
      if DayFromYear(y) + 59 <= day {
        y := y + 4;
        YearsApart(y0 + 1, y);
      }
    }
  }

  /** An ordinary date, or else a weekday, comes round from the third day on, within two years. */
  lemma OrdinaryDay(p: ParsedCron, day: int) returns (found: int)
    requires Usable(p) && AdmitsOrdinary(p)
    ensures day + 2 < found <= day + 2 + 2 * 366 && MatchesDate(p, found)
  {
    hide MonthFromDay, DateFromDay, WeekDay, MonthLength, DayFromYear, YearFromDay, MakeDay, IsLeap;
    var x :| MatchesDate(p, x) && !IsLeapDay(x);
    var (m, d, w) := (MonthFromDay(x), DateFromDay(x), WeekDay(x));
    if w in p.daysOfWeek && p.dayOfWeekRestricted {
      found := WeekdayInNextYear(day + 2, m, w);
    } else {
      DateOfDay(x);
      if d > MonthLength(false, m) {
        OnlyLeapDay(YearFromDay(x), m, d);
      }
      found := DateInNextYear(day + 2, m, d);
    }
  }

  lemma OnlyLeapDay(y: int, m: int, d: int)
    requires IsDate(y, m, d) && d > MonthLength(false, m)
    ensures m == 2 && d == 29 && IsLeap(y)
  {
  }

  /** A schedule that matches no ordinary day but some day matches every 29 February. */
  lemma LeapDaysMatch(p: ParsedCron, day: int)
    requires Usable(p) && AdmitsDate(p) && !AdmitsOrdinary(p)
    requires IsLeapDay(day)
    ensures MatchesDate(p, day)
  {
    hide MonthFromDay, DateFromDay, WeekDay, MonthLength, DayFromYear, YearFromDay, MakeDay, IsLeap;
    var x :| MatchesDate(p, x);
    assert IsLeapDay(x);
    if p.dayOfWeekRestricted && WeekDay(x) in p.daysOfWeek {
      WeekdayIsOrdinary(p, x);
      assert false;
    }
  }

  /** A day matched for its weekday has an ordinary day beside it. */
  lemma WeekdayIsOrdinary(p: ParsedCron, x: int)
    requires Usable(p) && MatchesDate(p, x)
    requires p.dayOfWeekRestricted && WeekDay(x) in p.daysOfWeek
    ensures AdmitsOrdinary(p)
  {
    hide MonthFromDay, DateFromDay, WeekDay;
    var other := WeekdayInNextYear(0, MonthFromDay(x), WeekDay(x));
    assert MatchesDate(p, other) && !IsLeapDay(other);
  }

  /** A minute of such a schedule is a scheduled time of a 29 February. */
  lemma OnlyLeapMinutes(p: ParsedCron, n: int) returns (y: int)
    requires !AdmitsOrdinary(p) && Fires(p, n)
    ensures IsLeap(y) && n == LeapMinute(y, HourOf(n), MinuteOf(n))
  {
    hide MonthFromDay, DateFromDay, DayFromYear, YearFromDay, IsLeap, HourOf, MinuteOf;
    var day := DayOf(n);
    assert IsLeapDay(day);
    y := YearFromDay(day);
    DateOfDay(day);
    OnlyLeapDay(y, 2, 29);
    FebruaryEnds(y);
    OnItsDay(n);
  }

  /**
   * When the walk finds a run: exactly when the schedule admits an ordinary day, whatever the
   * zone and the start, or some day and a scheduled time of a 29 February is still to come in
   * the window.
   */
  lemma SearchAnswers(p: ParsedCron, z: Zone, from: int)
    requires WellFormed(z) && Usable(p)
    ensures !Searched(p, z, from, Limit(z, from)) <==>
            AdmitsOrdinary(p) || (AdmitsDate(p) && LeapInWindow(p, z, from))
  {
    hide AdmitsOrdinary, AdmitsDate, LeapInWindow, Usable, Searched, Limit, Bounded, WholeMinuteOffsets,
      WholeMinuteTransitions, Isolated;
    if AdmitsOrdinary(p) {
      OrdinaryRun(p, z, from);
    } else if AdmitsDate(p) && LeapInWindow(p, z, from) {
      LeapRun(p, z, from);
    } else if !Searched(p, z, from, Limit(z, from)) {
      OnlyLeapRuns(p, z, from);
    }
  }

  lemma OrdinaryRun(p: ParsedCron, z: Zone, from: int)
    requires WellFormed(z) && Usable(p) && AdmitsOrdinary(p)
    ensures !Searched(p, z, from, Limit(z, from))
  {
    hide MatchesDate, HourOf, MinuteOf, Resolve, Start, AdmitsOrdinary, WholeMinuteOffsets, WholeMinuteTransitions,
      Isolated;
    var h :| h in p.hours && 0 <= h <= 23;
    var m :| m in p.minutes && 0 <= m <= 59;
    var found := OrdinaryDay(p, DayOf(Start(z, from)));
    var n := OnDay(found, h, m);
    OnDayReads(found, h, m);
    assert Fires(p, n);
    StartIsAhead(z, from);
    ResolvesPast(z, from, n);
  }

  lemma LeapRun(p: ParsedCron, z: Zone, from: int)
    requires WellFormed(z) && Usable(p)
    requires !AdmitsOrdinary(p) && AdmitsDate(p) && LeapInWindow(p, z, from)
    ensures !Searched(p, z, from, Limit(z, from))
  {
    hide MatchesDate, HourOf, MinuteOf, Resolve, Start, AdmitsOrdinary, AdmitsDate, WellFormed, Usable, NotYet,
      DayFromYear, MonthFromDay, DateFromDay, IsLeap;
    var y, h, m :| LeapTime(p, z, from, y, h, m);
    var n := LeapMinute(y, h, m);
    LeapDay(y);
    LeapDaysMatch(p, DayFromYear(y) + 59);
    OnDayReads(DayFromYear(y) + 59, h, m);
    assert Fires(p, n);
    NotYetIsAhead(z, from, n);
  }

  lemma OnlyLeapRuns(p: ParsedCron, z: Zone, from: int)
    requires WellFormed(z) && Usable(p)
    requires !AdmitsOrdinary(p) && !Searched(p, z, from, Limit(z, from))
    ensures AdmitsDate(p) && LeapInWindow(p, z, from)
  {
    hide MatchesDate, HourOf, MinuteOf, Resolve, Start, AdmitsOrdinary, Usable, NotYet, IsLeap, LeapMinute,
      Bounded, WholeMinuteOffsets, WholeMinuteTransitions, Isolated;
    var n :| Fires(p, n) && Start(z, from) <= n < Limit(z, from) && Resolve(z, n) > from;
    assert MatchesDate(p, DayOf(n));
    var y := OnlyLeapMinutes(p, n);
    NotYetIsAhead(z, from, n);
    assert LeapTime(p, z, from, y, HourOf(n), MinuteOf(n));
  }

  // ----- The calendar's part in it -----

  /** A 29 February from the third day of the window to its last whole one is enough. */
  lemma LeapDaySuffices(p: ParsedCron, z: Zone, from: int, y: int)
    requires Usable(p) && IsLeap(y)
    requires DayOf(Start(z, from)) + 2 < DayFromYear(y) + 59 < DayOf(Start(z, from)) + SEARCH_DAYS
    ensures LeapInWindow(p, z, from)
  {
    hide Start, DayFromYear, IsLeap;
    var h :| h in p.hours && 0 <= h <= 23;
    var m :| m in p.minutes && 0 <= m <= 59;
    OnDayReads(DayFromYear(y) + 59, h, m);
    assert LeapTime(p, z, from, y, h, m);
  }

  /** One between its first and last days is needed. */
  lemma LeapDayNeeded(p: ParsedCron, z: Zone, from: int) returns (y: int)
    requires LeapInWindow(p, z, from)
    ensures IsLeap(y)
    ensures DayOf(Start(z, from)) <= DayFromYear(y) + 59 <= DayOf(Start(z, from)) + SEARCH_DAYS
  {
    hide Start, DayFromYear, IsLeap;
    var y0, h, m :| LeapTime(p, z, from, y0, h, m);
    y := y0;
    OnDayReads(DayFromYear(y) + 59, h, m);
  }

  /** Wherever leap days come every four years and no step back passes a day, some scheduled time of one is ahead. */
  lemma LeapDayAhead(p: ParsedCron, z: Zone, from: int)
    requires WellFormed(z) && SmallStepsBack(z) && Usable(p)
    requires NoSkippedLeapDay(DayOf(Start(z, from)))
    ensures LeapInWindow(p, z, from)
  {
    hide NoSkippedLeapDay, HourOf, MinuteOf, Resolve, SmallStepsBack, Start, NotYet, IsLeap, DayFromYear,
      Bounded, WholeMinuteOffsets, WholeMinuteTransitions, Isolated;
    var day := DayOf(Start(z, from));
    var h :| h in p.hours && 0 <= h <= 23;
    var m :| m in p.minutes && 0 <= m <= 59;
    var y, later := LeapDayInWindow(day);
    var n := LeapMinute(y, h, m);
    OnDayReads(DayFromYear(y) + 59, h, m);
    NotYetIsAhead(z, from, n);
    if Resolve(z, n) > from {
      assert LeapTime(p, z, from, y, h, m);
    } else {
      if n >= Start(z, from) + MS_DAY {
        ResolvesAhead(z, from, n);
      }
      OnDayReads(DayFromYear(later) + 59, h, m);
      NotYetIsAhead(z, from, LeapMinute(later, h, m));
      ResolvesAhead(z, from, LeapMinute(later, h, m));
      assert LeapTime(p, z, from, later, h, m);
    }
  }

  // ----- Starts before the year 100 -----

  /** Within eight years and a little there is a 29 February. */
  lemma LeapDaySoon(day: int) returns (y: int)
    ensures IsLeap(y) && day < DayFromYear(y) + 59 <= day + 10 * 366
  {
    hide DayFromYear, IsLeap;
    var y0 := YearFromDay(day) + 1;
    y := NextFourth(y0);
    if !IsLeap(y) {
      AfterSkipped(y);
      y := y + 4;
    }
    YearsApart(y0, y);
    AtMost366(y0 - 1, y);
  }

  lemma AtMost366(y1: int, y2: int)
    requires y1 <= y2
    ensures DayFromYear(y2) <= DayFromYear(y1) + 366 * (y2 - y1)
    decreases y2 - y1
  {
    if y1 < y2 {
      NextYear(y1);
      AtMost366(y1 + 1, y2);
    }
  }

  /** Any schedule that admits a day has one from the third day on, within ten years and a little. */
  lemma SomeDay(p: ParsedCron, day: int) returns (found: int)
    requires Usable(p) && AdmitsDate(p)
    ensures day + 2 < found <= day + 2 + 10 * 366 && MatchesDate(p, found)
  {
    hide AdmitsOrdinary, AdmitsDate, Usable, MatchesDate, MonthFromDay, DateFromDay, IsLeap, DayFromYear;
    if AdmitsOrdinary(p) {
      found := OrdinaryDay(p, day);
    } else {
      var y := LeapDaySoon(day + 2);
      LeapDay(y);
      found := DayFromYear(y) + 59;
      LeapDaysMatch(p, found);
    }
  }

  /**
   * What the walk finds is the right answer exactly when the start reads as the year 100 or later:
   * an earlier start is taken for one centuries on, and every run in between is passed over.
   */
  lemma RightFromYear100(p: ParsedCron, z: Zone, from: int, r: Option<int>)
    requires WellFormed(z) && Usable(p) && AdmitsDate(p)
    requires WalkAnswer(p, z, from, r)
    ensures NextAnswer(p, z, from, r) <==> Reading(z, from) >= YEAR_100
  {
    hide MatchesDate, HourOf, MinuteOf, Resolve, Start, WholeMinuteOffsets, WholeMinuteTransitions, Isolated,
      DayFromYear, AdmitsDate, WholeMinute;
    if Reading(z, from) >= YEAR_100 {
      WalkIsRight(p, z, from, r);
    } else {
      var h :| h in p.hours && 0 <= h <= 23;
      var m :| m in p.minutes && 0 <= m <= 59;
      var found := SomeDay(p, DayOf(Local(z, from)));
      var n := OnDay(found, h, m);
      OnDayReads(found, h, m);
      assert Fires(p, n);
      StartIsAhead(z, from);
      ResolvesPast(z, from, n);
      if r.Some? {
        var later :| Fires(p, later) && Start(z, from) <= later < Limit(z, from) && Resolve(z, later) == r.value;
      }
    }
  }

  /** A schedule no day matches never runs. */
  lemma NoDateNoRun(p: ParsedCron, z: Zone, from: int)
    requires Bounded(z)
    requires !AdmitsDate(p)
    ensures NoRunInWindow(p, z, from)
  {
    assert forall n :: Fires(p, n) ==> MatchesDate(p, DayOf(n));
  }

  /**
   * The window is too short across a skipped leap day: from 1 March four years before it, the
   * 29 February schedule has no run in the window, although it has one later.
   */
  lemma SkippedLeapDayMissed(y: int, p: ParsedCron)
    requires y % 4 == 0 && !IsLeap(y) && y > 100
    requires p.months == {2} && p.daysOfMonth == {29} && p.dayOfMonthRestricted && !p.dayOfWeekRestricted
    requires p.daysOfWeek == {0, 1, 2, 3, 4, 5, 6}
    ensures AdmitsDate(p)
    ensures NoRunInWindow(p, Utc(), MakeDay(y - 4, 2, 1) * MS_DAY)
  {
    hide DayFromYear, MakeDay, DayOf, MonthFromDay, DateFromDay, Resolve, WeekDay, IsLeap, Limit;
    var day := MakeDay(y - 4, 2, 1);
    LeapDayMatches(y + 4, p);
    forall n | Fires(p, n) && n < Limit(Utc(), day * MS_DAY)
      ensures Resolve(Utc(), n) <= day * MS_DAY
    {
      UtcWindow(y - 4, n);
      MissedLeapDay(y, DayOf(n));
      ResolveUnique(Utc(), n, n);
    }
  }

  lemma UtcStart(day: int)
    requires day >= DayFromYear(100)
    ensures Start(Utc(), day * MS_DAY) == day * MS_DAY + MS_MINUTE
  {
    hide DayFromYear, AsUTC, WholeMinute;
    assert day * MS_DAY / 1000 == 86400 * day;
    assert ToNaive(Utc(), day * MS_DAY) == day * MS_DAY;
    assert day * MS_DAY / MS_MINUTE == 1440 * day;
  }

  lemma UtcWindow(y: int, n: int)
    requires y >= 100 && n < Limit(Utc(), MakeDay(y, 2, 1) * MS_DAY)
    ensures DayOf(n) <= MakeDay(y, 2, 1) + SEARCH_DAYS
    ensures DayOf(n) < MakeDay(y, 2, 1) ==> n < MakeDay(y, 2, 1) * MS_DAY
  {
    hide DayFromYear, MakeDay, Start;
    FromJanuary(y, 3, 1);
    YearsApart(100, y);
    UtcStart(MakeDay(y, 2, 1));
  }

  function Utc(): Zone {
    _ => 0
  }

  lemma LeapDayMatches(y: int, p: ParsedCron)
    requires y % 4 == 0 && !IsLeap(y - 4)
    requires p.months == {2} && p.daysOfMonth == {29} && !p.dayOfWeekRestricted
    requires p.daysOfWeek == {0, 1, 2, 3, 4, 5, 6}
    ensures AdmitsDate(p)
  {
    hide DayFromYear, MonthFromDay, DateFromDay, IsLeap;
    AfterSkipped(y - 4);
    LeapDay(y);
    assert WeekDay(DayFromYear(y) + 59) in p.daysOfWeek;
    assert MatchesDate(p, DayFromYear(y) + 59);
  }

  /** Between 1 March of year `y - 4` and 2 March of a skipped year `y` there is no 29 February. */
  lemma MissedLeapDay(y: int, day: int)
    requires y % 4 == 0 && !IsLeap(y)
    requires MonthFromDay(day) == 2 && DateFromDay(day) == 29
    requires day <= MakeDay(y - 4, 2, 1) + SEARCH_DAYS
    ensures day < MakeDay(y - 4, 2, 1)
  {
    hide DayFromYear, MonthFromDay, DateFromDay;
    var x := YearFromDay(day);
    DateOfDay(day);
    LeapOnly(x);
    hide IsLeap, MakeDay;
    FebruaryEnds(x);
    FourYears(y - 4);
    if x > y {
      YearsApart(y + 1, x);
      NextYear(y);
      FebruaryEnds(y - 4);
    } else if x < y - 4 {
      YearsApart(x + 1, y - 4);
      NextYear(x);
      FebruaryEnds(y - 4);
    } else {
      BetweenFourths(y - 4);
    }
  }

  /** Where February ends in day numbers. */
  lemma FebruaryEnds(y: int)
    ensures MakeDay(y, 2, 1) == DayFromYear(y) + if IsLeap(y) then 60 else 59
    ensures MakeDay(y, 1, 29) == DayFromYear(y) + 59
  {
  }

  /** A year with a 29 February is a multiple of four. */
  lemma LeapOnly(x: int)
    requires IsDate(x, 2, 29)
    ensures IsLeap(x)
  {
  }
}
