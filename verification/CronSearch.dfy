/**
 * The next-run search: a cursor over wall-clock readings that jumps past days and hours without a
 * match, and the instant of the first matching reading that lies after the start.
 */
module CronSearch {
  import opened Calendar
  import opened Wrappers
  import opened Zone

  /** What a crontab line parses to. */
  datatype ParsedCron = ParsedCron(
    minutes: set<int>,
    hours: set<int>,
    daysOfMonth: set<int>,
    months: set<int>,
    daysOfWeek: set<int>,
    dayOfMonthRestricted: bool,
    dayOfWeekRestricted: bool)

  /** Four years and a day. */
  const SEARCH_DAYS := 1462

  function DayOf(naive: int): int { naive / MS_DAY }

  function HourOf(naive: int): (h: int)
    ensures 0 <= h <= 23
  {
    naive / MS_HOUR % 24
  }

  function MinuteOf(naive: int): (m: int)
    ensures 0 <= m <= 59
  {
    naive / MS_MINUTE % 60
  }

  /** The day-of-month / day-of-week rule: either, when both columns are restricted; else both. */
  predicate MatchesDate(p: ParsedCron, day: int) {
    && MonthFromDay(day) in p.months
    && if p.dayOfMonthRestricted && p.dayOfWeekRestricted
       then DateFromDay(day) in p.daysOfMonth || WeekDay(day) in p.daysOfWeek
       else DateFromDay(day) in p.daysOfMonth && WeekDay(day) in p.daysOfWeek
  }

  /** The wall-clock minutes a schedule names. */
  ghost predicate Fires(p: ParsedCron, naive: int) {
    && WholeMinute(naive)
    && MatchesDate(p, DayOf(naive))
    && HourOf(naive) in p.hours
    && MinuteOf(naive) in p.minutes
  }

  /** `r` is the least instant after `from` at which some minute of the schedule resolves. */
  ghost predicate IsNextRun(p: ParsedCron, z: Zone, from: int, r: int)
    requires Bounded(z)
  {
    && r > from
    && (exists n :: Fires(p, n) && Resolve(z, n) == r)
    && (forall n :: Fires(p, n) && Resolve(z, n) > from ==> r <= Resolve(z, n))
  }

  /** Where the walk starts: the whole minute after the reading at `from`. */
  function Start(z: Zone, from: int): (start: int)
    ensures WholeMinute(start) && start > YEAR_100
  {
    hide DayFromYear, WholeMinute;
    Multiple(ToNaive(z, from) / MS_MINUTE + 1, MS_MINUTE);
    ToNaive(z, from) / MS_MINUTE * MS_MINUTE + MS_MINUTE
  }

  lemma Multiple(k: int, unit: int)
    requires unit == MS_MINUTE || unit == MS_HOUR || unit == MS_DAY
    ensures WholeMinute(k * unit)
  {
    assert k * MS_HOUR == (60 * k) * MS_MINUTE && k * MS_DAY == (1440 * k) * MS_MINUTE;
    assert (60 * k) * MS_MINUTE % MS_MINUTE == 0 && (1440 * k) * MS_MINUTE % MS_MINUTE == 0;
  }

  /** Distinct whole minutes are a minute apart. */
  lemma MinutesApart(n: int, cursor: int)
    requires WholeMinute(n) && WholeMinute(cursor)
    requires cursor <= n < cursor + MS_MINUTE
    ensures n == cursor
  {
  }

  function Limit(z: Zone, from: int): int {
    Start(z, from) + SEARCH_DAYS * MS_DAY
  }

  /** No minute of the schedule before the end of the search resolves after `from`. */
  ghost predicate NoRunInWindow(p: ParsedCron, z: Zone, from: int)
    requires Bounded(z)
  {
    forall n :: Fires(p, n) && n < Limit(z, from) ==> Resolve(z, n) <= from
  }

  /** The right answer: the next run, or nothing when there is none up to the end of the search. */
  ghost predicate NextAnswer(p: ParsedCron, z: Zone, from: int, r: Option<int>)
    requires Bounded(z)
  {
    match r
    case Some(i) => IsNextRun(p, z, from, i)
    case None => NoRunInWindow(p, z, from)
  }

  /**
   * `r` is the least instant after `from` at which a minute of the schedule from the start on
   * resolves, and one inside the window does.
   */
  ghost predicate IsFirstRun(p: ParsedCron, z: Zone, from: int, r: int)
    requires Bounded(z)
  {
    && r > from
    && (exists n :: Fires(p, n) && Start(z, from) <= n < Limit(z, from) && Resolve(z, n) == r)
    && (forall n :: Fires(p, n) && n >= Start(z, from) && Resolve(z, n) > from ==> r <= Resolve(z, n))
  }

  /** What the walk finds: the first run among the minutes from its start on, or none in its window. */
  ghost predicate WalkAnswer(p: ParsedCron, z: Zone, from: int, r: Option<int>)
    requires Bounded(z)
  {
    match r
    case Some(i) => IsFirstRun(p, z, from, i)
    case None => Searched(p, z, from, Limit(z, from))
  }

  // ----- What each skip may pass over -----

  /** Every reading up to the one shown at `from` was first reached at `from` or before. */
  lemma ReachedByStart(z: Zone, from: int, n: int)
    requires Bounded(z)
    requires WholeMinute(n)
    requires n < Start(z, from) && Reading(z, from) >= YEAR_100
    ensures Resolve(z, n) <= from
  {
    assert n <= ToNaive(z, from) / MS_MINUTE * MS_MINUTE by {
      MultiplesApart(n, ToNaive(z, from));
    }
    assert n <= Local(z, from);
    var r := Resolve(z, n);
    assert from < r ==> Local(z, from) < n;
  }

  lemma MultiplesApart(n: int, t: int)
    requires WholeMinute(n)
    requires n < t / MS_MINUTE * MS_MINUTE + MS_MINUTE
    ensures n <= t / MS_MINUTE * MS_MINUTE
  {
    assert n == n / MS_MINUTE * MS_MINUTE;
  }

  lemma MinuteLater(cursor: int)
    requires WholeMinute(cursor)
    ensures WholeMinute(cursor + MS_MINUTE)
  {
  }

  lemma AfterToday(cursor: int, day: int)
    requires day > DayOf(cursor)
    ensures day * MS_DAY > cursor
  {
  }

  /** The start of the date after the cursor's own. */
  function NextMidnight(cursor: int): (next: int)
    requires cursor >= YEAR_100
    ensures next > cursor && WholeMinute(next)
    ensures next == (DayOf(cursor) + 1) * MS_DAY
  {
    hide DateUTC;
    var day := DayOf(cursor);
    NextDate(day);
    FromYear100(day);
    var next := DateUTC(YearFromDay(day), MonthFromDay(day) - 1, DateFromDay(day) + 1);
    Multiple(next, MS_DAY);
    AfterToday(cursor, next);
    next * MS_DAY
  }

  lemma FromYear100(day: int)
    requires day >= DayFromYear(100)
    ensures YearFromDay(day) >= 100
  {
    hide DayFromYear;
    if YearFromDay(day) < 100 {
      YearsApart(YearFromDay(day) + 1, 100);
    }
  }

  /** The start of the next hour. */
  function NextHour(cursor: int): (next: int)
    ensures next > cursor && WholeMinute(next)
  {
    Multiple(cursor / MS_HOUR + 1, MS_HOUR);
    cursor / MS_HOUR * MS_HOUR + MS_HOUR
  }

  /** Every minute of the schedule from the start to the cursor resolves no later than `from`. */
  ghost predicate Searched(p: ParsedCron, z: Zone, from: int, cursor: int)
    requires Bounded(z)
  {
    forall n :: Fires(p, n) && Start(z, from) <= n < cursor ==> Resolve(z, n) <= from
  }

  /** From a reading of the year 100 or later, what the walk finds is the right answer. */
  lemma WalkIsRight(p: ParsedCron, z: Zone, from: int, r: Option<int>)
    requires Bounded(z) && Reading(z, from) >= YEAR_100
    requires WalkAnswer(p, z, from, r)
    ensures NextAnswer(p, z, from, r)
  {
    hide Start, Resolve;
    forall n | Fires(p, n) && n < Start(z, from)
      ensures Resolve(z, n) <= from
    {
      ReachedByStart(z, from, n);
    }
  }

  lemma SearchedAtStart(p: ParsedCron, z: Zone, from: int)
    requires Bounded(z)
    ensures Searched(p, z, from, Start(z, from))
  {
  }

  lemma SearchedBefore(p: ParsedCron, z: Zone, from: int, c1: int, c2: int)
    requires Bounded(z)
    requires c1 <= c2 && Searched(p, z, from, c2)
    ensures Searched(p, z, from, c1)
  {
  }

  /** The cursor may jump over readings that are not in the schedule. */
  lemma SkipOver(p: ParsedCron, z: Zone, from: int, cursor: int, next: int)
    requires Bounded(z)
    requires Searched(p, z, from, cursor)
    requires forall n :: cursor <= n < next ==> !Fires(p, n)
    ensures Searched(p, z, from, next)
  {
  }

  lemma SkipDay(p: ParsedCron, z: Zone, from: int, cursor: int)
    requires Bounded(z) && cursor >= YEAR_100
    requires Searched(p, z, from, cursor)
    requires !MatchesDate(p, DayOf(cursor))
    ensures Searched(p, z, from, NextMidnight(cursor))
  {
    forall n | cursor <= n < NextMidnight(cursor)
      ensures !Fires(p, n)
    {
      SameDay(cursor, n);
    }
    SkipOver(p, z, from, cursor, NextMidnight(cursor));
  }

  lemma SameDay(cursor: int, n: int)
    requires cursor <= n < (DayOf(cursor) + 1) * MS_DAY
    ensures DayOf(n) == DayOf(cursor)
  {
  }

  lemma SkipHour(p: ParsedCron, z: Zone, from: int, cursor: int)
    requires Bounded(z)
    requires Searched(p, z, from, cursor)
    requires HourOf(cursor) !in p.hours
    ensures Searched(p, z, from, NextHour(cursor))
  {
    forall n | cursor <= n < NextHour(cursor)
      ensures !Fires(p, n)
    {
      assert n / MS_HOUR == cursor / MS_HOUR;
    }
    SkipOver(p, z, from, cursor, NextHour(cursor));
  }

  lemma SkipMinute(p: ParsedCron, z: Zone, from: int, cursor: int)
    requires Bounded(z)
    requires WholeMinute(cursor)
    requires Searched(p, z, from, cursor)
    requires Fires(p, cursor) ==> Resolve(z, cursor) <= from
    ensures Searched(p, z, from, cursor + MS_MINUTE)
  {
    hide Start, Resolve, MatchesDate, HourOf, MinuteOf, DayOf;
    forall n | Fires(p, n) && Start(z, from) <= n < cursor + MS_MINUTE
      ensures Resolve(z, n) <= from
    {
      if n >= cursor {
        MinutesApart(n, cursor);
      }
    }
  }

  /** Nothing before the cursor resolves after `from`, and nothing after it resolves earlier. */
  lemma FoundNext(p: ParsedCron, z: Zone, from: int, cursor: int)
    requires Bounded(z)
    requires Searched(p, z, from, cursor) && Start(z, from) <= cursor < Limit(z, from)
    requires Fires(p, cursor) && Resolve(z, cursor) > from
    ensures IsFirstRun(p, z, from, Resolve(z, cursor))
  {
    hide Start, Resolve, Fires;
    forall n | Fires(p, n) && n >= Start(z, from) && Resolve(z, n) > from
      ensures Resolve(z, cursor) <= Resolve(z, n)
    {
      ResolveMonotone(z, cursor, n);
    }
  }

  // ----- The walk -----

  /** The zone does not change its offset in the first days of the year 100. */
  ghost predicate SteadyAt100(z: Zone) {
    forall n {:trigger Steady(z, n)} :: YEAR_100 <= n && !Modern(n) ==> Steady(z, n)
  }

  /** The walk's readings are resolved right. */
  ghost predicate Resolvable(z: Zone, from: int) {
    Modern(Start(z, from)) || SteadyAt100(z)
  }

  lemma ResolvableIsExact(z: Zone, from: int, cursor: int)
    requires Resolvable(z, from) && cursor >= Start(z, from)
    ensures Exact(z, cursor)
  {
    assert SteadyAt100(z) && !Modern(cursor) ==> Steady(z, cursor);
  }

  /**
   * The next run after `from`: the least instant at which a minute of the schedule resolves, or
   * nothing when none does inside the search window. A start before the year 100 is taken for
   * one centuries later, and the walk looks from there on.
   */
  method NextRun(p: ParsedCron, from: int, z: Zone) returns (r: Option<int>)
    requires WellFormed(z)
    ensures r.Some? ==> r.value > from
    ensures Resolvable(z, from) ==> WalkAnswer(p, z, from, r)
    ensures Resolvable(z, from) && Reading(z, from) >= YEAR_100 ==> NextAnswer(p, z, from, r)
  {
    hide NextMidnight, NextHour, Start, WholeMinute, DayOf, HourOf, MinuteOf, MatchesDate, Resolve, Searched,
      IsFirstRun, NextAnswer, Exact, Resolvable;
    var cursor := Start(z, from);
    var limit := cursor + SEARCH_DAYS * MS_DAY;
    ghost var right := Resolvable(z, from);
    SearchedAtStart(p, z, from);

    while cursor < limit
      invariant WholeMinute(cursor) && cursor >= Start(z, from)
      invariant right ==> Searched(p, z, from, cursor)
      decreases limit - cursor
    {
      ghost var was := cursor;
      if !MatchesDate(p, DayOf(cursor)) {
        cursor := NextMidnight(cursor);
        if right {
          SkipDay(p, z, from, was);
        }
        continue;
      }
      if HourOf(cursor) !in p.hours {
        cursor := NextHour(cursor);
        if right {
          SkipHour(p, z, from, was);
        }
        continue;
      }
      if MinuteOf(cursor) !in p.minutes {
        MinuteLater(cursor);
        cursor := cursor + MS_MINUTE;
        if right {
          SkipMinute(p, z, from, was);
        }
        continue;
      }
      MinuteLater(cursor);
      if right {
        ResolvableIsExact(z, from, cursor);
      }
      var instant, _ := ResolveNaive(z, cursor);
      assert Fires(p, cursor);
      if instant > from {
        r := Some(instant);
        if right {
          FoundNext(p, z, from, cursor);
        }
        if right && Reading(z, from) >= YEAR_100 {
          WalkIsRight(p, z, from, r);
        }
        return;
      }
      cursor := cursor + MS_MINUTE;
      if right {
        SkipMinute(p, z, from, was);
      }
    }
    r := None;
    if right {
      SearchedBefore(p, z, from, limit, cursor);
    }
    if right && Reading(z, from) >= YEAR_100 {
      WalkIsRight(p, z, from, r);
    }
  }
}
