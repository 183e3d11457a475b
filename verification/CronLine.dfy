/** A whole crontab line: aliases, five fields, and the search that starts from them. */
module CronLine {
  import opened Calendar
  import opened CronFields
  import opened CronSchedule
  import opened CronSearch
  import opened Text
  import opened Wrappers
  import opened Zone

  datatype Column = Minute | Hour | DayOfMonth | Month | DayOfWeek

  datatype CronError =
    | ExpressionEmpty
    | RebootAlias
    | UnknownAlias
    | FieldCount(n: nat)
    | BadField(column: Column, error: FieldError)
    | NoRunTime

  /** Every run of white space becomes one space. */
  function Collapse(s: string): string
    decreases |s|
  {
    if s == "" then ""
    else if IsSpace(s[0]) then " " + Collapse(TrimStart(s[1..]))
    else [s[0]] + Collapse(s[1..])
  }

  /** Aliases spelled out; anything else with its white space collapsed. */
  function Normalize(expression: string): Result<string, CronError> {
    var normalized := Collapse(Trim(expression));
    if normalized == "" || normalized[0] != '@' then Ok(normalized)
    else
      var alias := Lower(normalized);
      if alias == "@yearly" || alias == "@annually" then Ok("0 0 1 1 *")
      else if alias == "@monthly" then Ok("0 0 1 * *")
      else if alias == "@weekly" then Ok("0 0 * * 0")
      else if alias == "@daily" || alias == "@midnight" then Ok("0 0 * * *")
      else if alias == "@hourly" then Ok("0 * * * *")
      else if alias == "@reboot" then Err(RebootAlias)
      else Err(UnknownAlias)
  }

  // ----- What a line means -----

  ghost predicate FieldAccepted(spec: FieldSpec, raw: string) {
    && Field(raw) != "" && (Field(raw) == "?" ==> spec.allowQuestionMark)
    && Readable(spec, Split(Field(raw), ','))
  }

  ghost predicate FieldDenotes(spec: FieldSpec, raw: string, v: int) {
    FieldAccepted(spec, raw) && Denotes(spec, Split(Field(raw), ','), v)
  }

  ghost predicate LineAccepted(expression: string) {
    && Trim(expression) != ""
    && Normalize(expression).Ok?
    && var parts := Split(Normalize(expression).value, ' ');
       && |parts| == 5
       && FieldAccepted(MINUTE_SPEC, parts[0]) && FieldAccepted(HOUR_SPEC, parts[1])
       && FieldAccepted(DOM_SPEC, parts[2]) && FieldAccepted(MONTH_SPEC, parts[3])
       && FieldAccepted(DOW_SPEC, parts[4])
  }

  /** Each set holds what its column denotes; Sunday's other number is folded into zero. */
  ghost predicate LineDenotes(expression: string, p: ParsedCron)
    requires LineAccepted(expression)
  {
    var parts := Split(Normalize(expression).value, ' ');
    && (forall v :: v in p.minutes <==> FieldDenotes(MINUTE_SPEC, parts[0], v))
    && (forall v :: v in p.hours <==> FieldDenotes(HOUR_SPEC, parts[1], v))
    && (forall v :: v in p.daysOfMonth <==> FieldDenotes(DOM_SPEC, parts[2], v))
    && (forall v :: v in p.months <==> FieldDenotes(MONTH_SPEC, parts[3], v))
    && (forall v :: v in p.daysOfWeek <==>
          (v != 7 && FieldDenotes(DOW_SPEC, parts[4], v)) || (v == 0 && FieldDenotes(DOW_SPEC, parts[4], 7)))
    && p.dayOfMonthRestricted == !IsWildcard(DOM_SPEC, parts[2])
    && p.dayOfWeekRestricted == !IsWildcard(DOW_SPEC, parts[4])
  }

  /** All five sets are non-empty and hold only values of their column. */
  ghost predicate InRangeSets(p: ParsedCron) {
    && p.minutes != {} && (forall v :: v in p.minutes ==> 0 <= v <= 59)
    && p.hours != {} && (forall v :: v in p.hours ==> 0 <= v <= 23)
    && p.daysOfMonth != {} && (forall v :: v in p.daysOfMonth ==> 1 <= v <= 31)
    && p.months != {} && (forall v :: v in p.months ==> 1 <= v <= 12)
    && p.daysOfWeek != {} && (forall v :: v in p.daysOfWeek ==> 0 <= v <= 6)
  }

  /** What `ParseField` promises for an accepted field. */
  ghost predicate FieldResult(spec: FieldSpec, raw: string, values: set<int>, wildcard: bool) {
    && FieldAccepted(spec, raw)
    && (forall v :: v in values <==> FieldDenotes(spec, raw, v))
    && (exists v :: v in values) && (forall v :: v in values ==> spec.min <= v <= spec.max)
    && wildcard == IsWildcard(spec, raw)
    && (wildcard ==> forall v :: spec.min <= v <= spec.max ==> v in values)
  }

  /** Why a column is refused: the first thing wrong with it. */
  ghost predicate ColumnFails(column: Column, spec: FieldSpec, raw: string, error: CronError) {
    && error.BadField? && error.column == column
    && if Field(raw) == "" then error.error == FieldIsEmpty
       else if Field(raw) == "?" && !spec.allowQuestionMark then error.error == QuestionMarkNotAllowed
       else FirstError(spec, Split(Field(raw), ','), error.error)
  }

  /** Why a line is refused: nothing in it, a bad alias, the wrong number of fields, or its first bad column. */
  ghost predicate LineFails(expression: string, error: CronError) {
    if Trim(expression) == "" then error == ExpressionEmpty
    else if Normalize(expression).Err? then error == Normalize(expression).error
    else
      var parts := Split(Normalize(expression).value, ' ');
      if |parts| != 5 then error == FieldCount(|parts|)
      else if !FieldAccepted(MINUTE_SPEC, parts[0]) then ColumnFails(Minute, MINUTE_SPEC, parts[0], error)
      else if !FieldAccepted(HOUR_SPEC, parts[1]) then ColumnFails(Hour, HOUR_SPEC, parts[1], error)
      else if !FieldAccepted(DOM_SPEC, parts[2]) then ColumnFails(DayOfMonth, DOM_SPEC, parts[2], error)
      else if !FieldAccepted(MONTH_SPEC, parts[3]) then ColumnFails(Month, MONTH_SPEC, parts[3], error)
      else !FieldAccepted(DOW_SPEC, parts[4]) && ColumnFails(DayOfWeek, DOW_SPEC, parts[4], error)
  }

  /** Sunday is 0 or 7 in the text and 0 afterwards. */
  function FoldSunday(values: set<int>): (r: set<int>)
    ensures forall v :: v in r <==> (v != 7 && v in values) || (v == 0 && 7 in values)
  {
    (values - {7}) + if 7 in values then {0} else {}
  }

  /** Reads one column, or reports which column is wrong and why. */
  method ParseColumn(column: Column, spec: FieldSpec, raw: string)
    returns (r: Result<(set<int>, bool), CronError>)
    requires Proper(spec)
    ensures r.Ok? <==> FieldAccepted(spec, raw)
    ensures r.Ok? ==> FieldResult(spec, raw, r.value.0, r.value.1)
    ensures r.Err? ==> ColumnFails(column, spec, raw, r.error)
  {
    hide ParseElement, Denotes, Split, Trim;
    var field := ParseField(spec, raw);
    if field.Err? {
      return Err(BadField(column, field.error));
    }
    return Ok(field.value);
  }

  /** Five accepted columns make a schedule fit for the search. */
  lemma Assembled(expression: string, p: ParsedCron, weekdays: set<int>)
    requires LineAccepted(expression)
    requires var parts := Split(Normalize(expression).value, ' ');
             && FieldResult(MINUTE_SPEC, parts[0], p.minutes, IsWildcard(MINUTE_SPEC, parts[0]))
             && FieldResult(HOUR_SPEC, parts[1], p.hours, IsWildcard(HOUR_SPEC, parts[1]))
             && FieldResult(DOM_SPEC, parts[2], p.daysOfMonth, !p.dayOfMonthRestricted)
             && FieldResult(MONTH_SPEC, parts[3], p.months, IsWildcard(MONTH_SPEC, parts[3]))
             && FieldResult(DOW_SPEC, parts[4], weekdays, !p.dayOfWeekRestricted)
    requires p.daysOfWeek == FoldSunday(weekdays)
    ensures LineDenotes(expression, p) && InRangeSets(p) && Usable(p)
  {
    hide FieldAccepted, FieldDenotes, Split, Normalize, IsWildcard, FoldSunday, LineAccepted;
    var w :| w in weekdays;
    assert (if w == 7 then 0 else w) in p.daysOfWeek;
  }

  /**
   * Accepts a line exactly when its alias is known or it has five acceptable fields; what it
   * returns holds what the fields denote and is fit for the search. Otherwise it says what is
   * wrong first.
   */
  method ParseCronExpression(expression: string) returns (r: Result<ParsedCron, CronError>)
    ensures r.Ok? <==> LineAccepted(expression)
    ensures r.Ok? ==> LineDenotes(expression, r.value) && InRangeSets(r.value) && Usable(r.value)
    ensures r.Err? ==> LineFails(expression, r.error)
  {
    hide FieldAccepted, FieldResult, ColumnFails, Split, Trim, Collapse, IsWildcard, LineDenotes, InRangeSets, Usable;
    SpecsProper();
    if Trim(expression) == "" {
      return Err(ExpressionEmpty);
    }
    var normalized := Normalize(expression);
    if normalized.Err? {
      return Err(normalized.error);
    }
    var parts := Split(normalized.value, ' ');
    if |parts| != 5 {
      return Err(FieldCount(|parts|));
    }
    var minute := ParseColumn(Minute, MINUTE_SPEC, parts[0]);
    if minute.Err? {
      return Err(minute.error);
    }
    var hour := ParseColumn(Hour, HOUR_SPEC, parts[1]);
    if hour.Err? {
      return Err(hour.error);
    }
    var dom := ParseColumn(DayOfMonth, DOM_SPEC, parts[2]);
    if dom.Err? {
      return Err(dom.error);
    }
    var month := ParseColumn(Month, MONTH_SPEC, parts[3]);
    if month.Err? {
      return Err(month.error);
    }
    var dow := ParseColumn(DayOfWeek, DOW_SPEC, parts[4]);
    if dow.Err? {
      return Err(dow.error);
    }
    var p := ParsedCron(minute.value.0, hour.value.0, dom.value.0, month.value.0, FoldSunday(dow.value.0),
                        !dom.value.1, !dow.value.1);
    WildcardFlag(MINUTE_SPEC, parts[0], minute.value.0, minute.value.1);
    WildcardFlag(HOUR_SPEC, parts[1], hour.value.0, hour.value.1);
    WildcardFlag(MONTH_SPEC, parts[3], month.value.0, month.value.1);
    Assembled(expression, p, dow.value.0);
    return Ok(p);
  }

  lemma WildcardFlag(spec: FieldSpec, raw: string, values: set<int>, wildcard: bool)
    requires FieldResult(spec, raw, values, wildcard)
    ensures FieldResult(spec, raw, values, IsWildcard(spec, raw))
  {
  }

  function Found(r: Result<int, CronError>): Option<int> {
    if r.Ok? then Some(r.value) else None
  }

  /** The search's answer for a parsed line: what the walk finds, which is right from the year 100 on. */
  ghost predicate Answers(p: ParsedCron, z: Zone, from: int, r: Result<int, CronError>)
    requires Bounded(z)
  {
    && (r.Err? ==> r.error == NoRunTime)
    && WalkAnswer(p, z, from, Found(r))
    && (Reading(z, from) >= YEAR_100 ==> NextAnswer(p, z, from, Found(r)))
  }

  /**
   * The next instant a line fires after `from` in a zone. Fails for a line that cannot be read,
   * and for one with no run in the search window.
   */
  method ComputeNextRunAt(expression: string, from: int, z: Zone) returns (r: Result<int, CronError>)
    requires WellFormed(z)
    ensures !LineAccepted(expression) ==> r.Err? && LineFails(expression, r.error)
    ensures r.Ok? ==> r.value > from
    ensures LineAccepted(expression) && Resolvable(z, from) ==>
              exists p :: LineDenotes(expression, p) && InRangeSets(p) && Usable(p) && Answers(p, z, from, r)
    ensures LineAccepted(expression) && Resolvable(z, from) && Reading(z, from) >= YEAR_100 ==>
              if r.Ok? then IsLineRun(expression, z, from, r.value)
              else r.error == NoRunTime && NoLineRun(expression, z, from)
  {
    hide LineAccepted, LineFails, LineDenotes, InRangeSets, Usable, WalkAnswer, NextAnswer, Resolvable, Reading,
      IsLineRun, NoLineRun;
    var parsed := ParseCronExpression(expression);
    if parsed.Err? {
      return Err(parsed.error);
    }
    var next := NextRun(parsed.value, from, z);
    if Resolvable(z, from) && Reading(z, from) >= YEAR_100 {
      RunAsNamed(expression, parsed.value, z, from, next);
    }
    match next
    case Some(instant) => return Ok(instant);
    case None => return Err(NoRunTime);
  }

  /**
   * When a readable line gets a run: exactly when some date other than a 29 February matches its
   * date columns, or when only 29 February does and a scheduled time of one is still to come in
   * the window.
   */
  lemma AnsweredExactly(p: ParsedCron, z: Zone, from: int, r: Result<int, CronError>)
    requires WellFormed(z)
    requires Usable(p) && Answers(p, z, from, r)
    ensures r.Ok? <==> AdmitsOrdinary(p) || (AdmitsDate(p) && LeapInWindow(p, z, from))
  {
    hide Usable, Start, AdmitsOrdinary, AdmitsDate, LeapInWindow, Fires, Resolve, NextAnswer;
    SearchAnswers(p, z, from);
  }

  /**
   * So some real date is enough, whatever the zone and the start, unless 29 February is the only
   * one; and then it is enough wherever the window spans no skipped leap day.
   */
  lemma AnsweredIffDateExists(p: ParsedCron, z: Zone, from: int, r: Result<int, CronError>)
    requires WellFormed(z)
    requires Usable(p) && Answers(p, z, from, r)
    requires AdmitsOrdinary(p) || (SmallStepsBack(z) && NoSkippedLeapDay(DayOf(Start(z, from))))
    ensures r.Ok? <==> AdmitsDate(p)
  {
    hide Usable, NoSkippedLeapDay, Start, SmallStepsBack, Answers, WellFormed, LeapInWindow;
    AnsweredExactly(p, z, from, r);
    if !AdmitsOrdinary(p) {
      LeapDayAhead(p, z, from);
    }
  }

  // ----- The day rule -----

  /** The columns of an accepted line, as written. */
  function Columns(expression: string): seq<string>
    requires Normalize(expression).Ok?
  {
    Split(Normalize(expression).value, ' ')
  }

  /** A day-of-week column names a weekday; Sunday is 0 or 7. */
  ghost predicate NamesWeekDay(raw: string, w: int) {
    FieldDenotes(DOW_SPEC, raw, w) || (w == 0 && FieldDenotes(DOW_SPEC, raw, 7))
  }

  /**
   * The rule of the crontab utility's input file (POSIX.1-2017 XCU), on the columns as written: the
   * month must be named; of the two day columns one left as an asterisk leaves the choice to the
   * other, two asterisks leave every day of the month, and when both name days one is enough.
   */
  ghost predicate NamesDate(expression: string, y: int, m: int, d: int)
    requires LineAccepted(expression) && IsDate(y, m, d)
  {
    var c := Columns(expression);
    var dom, dow := FieldDenotes(DOM_SPEC, c[2], d), NamesWeekDay(c[4], WeekDayOfDate(y, m, d));
    && FieldDenotes(MONTH_SPEC, c[3], m)
    && if IsWildcard(DOM_SPEC, c[2]) && IsWildcard(DOW_SPEC, c[4]) then true
       else if IsWildcard(DOM_SPEC, c[2]) then dow
       else if IsWildcard(DOW_SPEC, c[4]) then dom
       else dom || dow
  }

  /** A time of day, hours from 0 to 23 and minutes to 59. */
  predicate IsTime(h: int, mi: int) {
    0 <= h <= 23 && 0 <= mi <= 59
  }

  /** The line names this minute of this date. */
  ghost predicate NamesMinute(expression: string, y: int, m: int, d: int, h: int, mi: int)
    requires LineAccepted(expression) && IsDate(y, m, d) && IsTime(h, mi)
  {
    && NamesDate(expression, y, m, d)
    && FieldDenotes(HOUR_SPEC, Columns(expression)[1], h) && FieldDenotes(MINUTE_SPEC, Columns(expression)[0], mi)
  }

  /** A wall-clock reading that is a minute the line names. */
  ghost predicate LineNames(expression: string, n: int)
    requires LineAccepted(expression)
  {
    exists y, m, d, h, mi :: IsDate(y, m, d) && IsTime(h, mi) && n == OnDay(MakeDay(y, m - 1, d), h, mi)
                             && NamesMinute(expression, y, m, d, h, mi)
  }

  /** A parsed line matches exactly the dates its columns name. */
  lemma DayRule(expression: string, p: ParsedCron, y: int, m: int, d: int)
    requires LineAccepted(expression) && LineDenotes(expression, p) && IsDate(y, m, d)
    ensures MatchesDate(p, MakeDay(y, m - 1, d)) <==> NamesDate(expression, y, m, d)
  {
    hide Normalize, FieldDenotes, DateFromDay, WeekDay, WeekDayOfDate, MonthFromDay, Split, IsWildcard, MakeDay;
    var (day, c) := (MakeDay(y, m - 1, d), Columns(expression));
    DayOfDate(y, m, d);
    WeekDayIsOfDate(y, m, d);
    WildcardDenotes(DOM_SPEC, c[2], d);
    WildcardDenotes(DOW_SPEC, c[4], WeekDay(day));
  }

  /** And it fires at exactly the minutes the line names. */
  lemma LineRule(expression: string, p: ParsedCron, y: int, m: int, d: int, h: int, mi: int)
    requires LineAccepted(expression) && LineDenotes(expression, p) && IsDate(y, m, d) && IsTime(h, mi)
    ensures Fires(p, OnDay(MakeDay(y, m - 1, d), h, mi)) <==> NamesMinute(expression, y, m, d, h, mi)
  {
    hide Normalize, FieldDenotes, MatchesDate, NamesDate, Split, IsWildcard, OnDay, DayOf, HourOf, MinuteOf, MakeDay;
    DayRule(expression, p, y, m, d);
    OnDayReads(MakeDay(y, m - 1, d), h, mi);
  }

  lemma FiresAsNamed(expression: string, p: ParsedCron, n: int)
    requires LineAccepted(expression) && LineDenotes(expression, p)
    ensures Fires(p, n) <==> LineNames(expression, n)
  {
    hide LineAccepted, LineDenotes, NamesMinute, MatchesDate, OnDay, DayOf, HourOf, MinuteOf, MakeDay,
      YearFromDay, MonthFromDay, DateFromDay;
    if Fires(p, n) {
      var day := DayOf(n);
      var (y, m, d) := (YearFromDay(day), MonthFromDay(day), DateFromDay(day));
      DateOfDay(day);
      OnItsDay(n);
      LineRule(expression, p, y, m, d, HourOf(n), MinuteOf(n));
    }
    if y, m, d, h, mi :| IsDate(y, m, d) && IsTime(h, mi) && n == OnDay(MakeDay(y, m - 1, d), h, mi)
                         && NamesMinute(expression, y, m, d, h, mi) {
      LineRule(expression, p, y, m, d, h, mi);
    }
  }

  /** The next run in terms of the line's own text: the first instant after `from` for a minute it names. */
  ghost predicate IsLineRun(expression: string, z: Zone, from: int, r: int)
    requires LineAccepted(expression) && Bounded(z)
  {
    && r > from
    && (exists n :: LineNames(expression, n) && Resolve(z, n) == r)
    && (forall n :: LineNames(expression, n) && Resolve(z, n) > from ==> r <= Resolve(z, n))
  }

  ghost predicate NoLineRun(expression: string, z: Zone, from: int)
    requires LineAccepted(expression) && Bounded(z)
  {
    forall n :: LineNames(expression, n) && n < Start(z, from) + 1462 * MS_DAY ==> Resolve(z, n) <= from
  }

  lemma RunAsNamed(expression: string, p: ParsedCron, z: Zone, from: int, r: Option<int>)
    requires LineAccepted(expression) && LineDenotes(expression, p) && Bounded(z)
    requires NextAnswer(p, z, from, r)
    ensures if r.Some? then IsLineRun(expression, z, from, r.value) else NoLineRun(expression, z, from)
  {
    hide LineAccepted, LineDenotes, LineNames, Fires, Resolve, Start;
    forall n ensures Fires(p, n) <==> LineNames(expression, n) {
      FiresAsNamed(expression, p, n);
    }
  }

  lemma WildcardDenotes(spec: FieldSpec, raw: string, v: int)
    requires spec == DOM_SPEC || spec == DOW_SPEC
    requires FieldAccepted(spec, raw) && spec.min <= v <= spec.max
    ensures IsWildcard(spec, raw) ==> FieldDenotes(spec, raw, v)
  {
    SpecsProper();
    if IsWildcard(spec, raw) {
      WildcardIsEverything(spec, raw);
    }
  }

  // ----- Writing a schedule down -----

  function ListText(values: seq<nat>): string {
    Join(seq(|values|, i requires 0 <= i < |values| => FromNat(values[i])), ",")
  }

  /** A run of digits trims to itself and holds none of the characters the parser splits at. */
  lemma DigitsArePlain(s: string)
    requires AllDigits(s)
    ensures s != "" && Trim(s) == s && '/' !in s && '-' !in s && ',' !in s && s != "*" && s != "?"
  {
    hide FromNat;
    TrimNothing(s);
  }

  /** One number is read as itself. */
  lemma NumberElement(spec: FieldSpec, v: nat)
    requires spec.min <= v <= spec.max
    ensures ParseElement(spec, FromNat(v)) == Ok(Span(v, v, 1))
  {
    hide Trim, FromNat, AllDigits, ToNat, Split;
    var s := FromNat(v);
    DigitsArePlain(s);
    SplitNothing(s, '/');
    FromNatToNat(v);
  }

  /** A column that is one number is accepted exactly for the column's own values. */
  lemma ColumnRange(column: Column, v: nat)
    ensures FieldAccepted(SpecOf(column), FromNat(v)) <==>
            match column
            case Minute => v <= 59
            case Hour => v <= 23
            case DayOfMonth => 1 <= v <= 31
            case Month => 1 <= v <= 12
            case DayOfWeek => v <= 7
  {
    hide FromNat, Trim, Split, AllDigits, ParseElement;
    var spec, s := SpecOf(column), FromNat(v);
    DigitsArePlain(s);
    SplitNothing(s, ',');
    NumberIsRead(spec, v);
    OneElement(spec, s);
  }

  lemma OneElement(spec: FieldSpec, s: string)
    requires Trim(s) == s != "" && s != "?" && Split(s, ',') == [s]
    ensures FieldAccepted(spec, s) <==> ParseElement(spec, s).Ok?
  {
    hide Trim, Split, ParseElement;
    assert [s][0] == s;
  }

  lemma NumberIsRead(spec: FieldSpec, v: nat)
    ensures ParseElement(spec, FromNat(v)).Ok? <==> spec.min <= v <= spec.max
  {
    hide FromNat, Trim, Split, AllDigits, ToNat;
    var s := FromNat(v);
    DigitsArePlain(s);
    FromNatToNat(v);
    SplitNothing(s, '/');
    assert ParseValue(spec, s).Ok? <==> spec.min <= v <= spec.max;
  }

  /** A question mark stands for every day, and only in the two day columns. */
  lemma QuestionMarks(column: Column)
    ensures FieldAccepted(SpecOf(column), "?") <==> column == DayOfMonth || column == DayOfWeek
    ensures column == DayOfMonth || column == DayOfWeek ==> IsWildcard(SpecOf(column), "?")
  {
    hide Trim, Split, ParseElement, Denotes;
    SignIsPlain('?');
    assert "?" == ['?'];
    SpecsProper();
    if column == DayOfMonth || column == DayOfWeek {
      WildcardIsEverything(SpecOf(column), "?");
    }
  }

  // ----- What the aliases stand for -----

  lemma StarMeans(spec: FieldSpec)
    requires Proper(spec)
    ensures FieldAccepted(spec, "*") && IsWildcard(spec, "*")
    ensures forall v :: spec.min <= v <= spec.max ==> FieldDenotes(spec, "*", v)
  {
    hide Trim, Split, ParseElement, Denotes;
    SignIsPlain('*');
    assert "*" == ['*'];
    WildcardIsEverything(spec, "*");
  }

  lemma OneNumberMeans(spec: FieldSpec, n: nat)
    requires Proper(spec) && spec.min <= n <= spec.max
    ensures FieldAccepted(spec, FromNat(n)) && !IsWildcard(spec, FromNat(n))
    ensures forall v :: FieldDenotes(spec, FromNat(n), v) <==> v == n
  {
    hide FieldAccepted, FieldDenotes, IsWildcard, FromNat;
    assert ListText([n]) == FromNat(n);
    ListRoundTrip(spec, [n]);
  }

  /** Five columns that are read as they stand. */
  ghost predicate ReadAs(expression: string, columns: seq<string>) {
    && |columns| == 5 && Trim(expression) != "" && Normalize(expression).Ok?
    && Split(Normalize(expression).value, ' ') == columns
  }

  /** The alias an expression is, in any mixture of cases. */
  function AliasOf(expression: string): string {
    Lower(Collapse(Trim(expression)))
  }

  lemma AliasColumns(expression: string)
    ensures AliasOf(expression) == "@hourly" ==> ReadAs(expression, ["0", "*", "*", "*", "*"])
    ensures AliasOf(expression) in {"@daily", "@midnight"} ==> ReadAs(expression, ["0", "0", "*", "*", "*"])
    ensures AliasOf(expression) == "@weekly" ==> ReadAs(expression, ["0", "0", "*", "*", "0"])
    ensures AliasOf(expression) == "@monthly" ==> ReadAs(expression, ["0", "0", "1", "*", "*"])
    ensures AliasOf(expression) in {"@yearly", "@annually"} ==> ReadAs(expression, ["0", "0", "1", "1", "*"])
  {
    hide Trim, Collapse, Lower, Split;
    if |AliasOf(expression)| > 0 && AliasOf(expression)[0] == '@' {
      IsAlias(expression);
      Literals();
    }
  }

  lemma Literals()
    ensures Split("0 * * * *", ' ') == ["0", "*", "*", "*", "*"]
    ensures Split("0 0 * * *", ' ') == ["0", "0", "*", "*", "*"]
    ensures Split("0 0 * * 0", ' ') == ["0", "0", "*", "*", "0"]
    ensures Split("0 0 1 * *", ' ') == ["0", "0", "1", "*", "*"]
    ensures Split("0 0 1 1 *", ' ') == ["0", "0", "1", "1", "*"]
  {
    hide Split;
    FiveColumns("0 * * * *", "0", "*", "*", "*", "*");
    FiveColumns("0 0 * * *", "0", "0", "*", "*", "*");
    FiveColumns("0 0 * * 0", "0", "0", "*", "*", "0");
    FiveColumns("0 0 1 * *", "0", "0", "1", "*", "*");
    FiveColumns("0 0 1 1 *", "0", "0", "1", "1", "*");
  }

  lemma IsAlias(expression: string)
    requires |AliasOf(expression)| > 0 && AliasOf(expression)[0] == '@'
    ensures Trim(expression) != "" && Collapse(Trim(expression)) != "" && Collapse(Trim(expression))[0] == '@'
  {
    hide Trim;
    LowerKeeps(Collapse(Trim(expression)));
  }

  lemma FiveColumns(line: string, a: string, b: string, c: string, d: string, e: string)
    requires |line| == 9 && |a| == |b| == |c| == |d| == |e| == 1
    requires line[0] == a[0] != ' ' && line[2] == b[0] != ' ' && line[4] == c[0] != ' '
    requires line[6] == d[0] != ' ' && line[8] == e[0] != ' '
    requires line[1] == line[3] == line[5] == line[7] == ' '
    ensures Split(line, ' ') == [a, b, c, d, e]
  {
    hide Split;
    assert line == a + [' '] + line[2..];
    assert line[2..] == b + [' '] + line[4..];
    assert line[4..] == c + [' '] + line[6..];
    assert line[6..] == d + [' '] + e;
    SplitAtFirst(a, ' ', line[2..]);
    SplitAtFirst(b, ' ', line[4..]);
    SplitAtFirst(c, ' ', line[6..]);
    SplitAtFirst(d, ' ', e);
    SplitNothing(e, ' ');
  }

  /** A line of stars and single numbers, column by column. */
  lemma PlainColumns(expression: string, columns: seq<string>, y: int, m: int, d: int, h: int, mi: int)
    requires ReadAs(expression, columns) && IsDate(y, m, d) && IsTime(h, mi)
    requires columns[0] == "0" && columns[1] in {"0", "*"} && columns[2] in {"1", "*"}
    requires columns[3] in {"1", "*"} && columns[4] in {"0", "*"} && (columns[2] == "*" || columns[4] == "*")
    ensures LineAccepted(expression)
    ensures NamesMinute(expression, y, m, d, h, mi) <==>
              && mi == 0 && (columns[1] == "0" ==> h == 0) && (columns[2] == "1" ==> d == 1)
              && (columns[3] == "1" ==> m == 1) && (columns[4] == "0" ==> WeekDayOfDate(y, m, d) == 0)
  {
    hide FieldAccepted, FieldDenotes, IsWildcard, Normalize, Trim, Split, WeekDayOfDate;
    SpecsProper();
    assert FromNat(0) == "0" && FromNat(1) == "1";
    StarMeans(HOUR_SPEC);
    StarMeans(DOM_SPEC);
    StarMeans(MONTH_SPEC);
    StarMeans(DOW_SPEC);
    OneNumberMeans(MINUTE_SPEC, 0);
    OneNumberMeans(HOUR_SPEC, 0);
    OneNumberMeans(DOM_SPEC, 1);
    OneNumberMeans(MONTH_SPEC, 1);
    OneNumberMeans(DOW_SPEC, 0);
    assert 0 <= WeekDayOfDate(y, m, d) <= 6 by {
      WeekDayIsOfDate(y, m, d);
    }
  }

  /**
   * What each alias means: every hour on the hour, every midnight, midnight on Sundays, on the
   * first of a month, on 1 January.
   */
  lemma AliasesMean(expression: string, y: int, m: int, d: int, h: int, mi: int)
    requires IsDate(y, m, d) && IsTime(h, mi)
    ensures var alias := AliasOf(expression);
            alias in {"@hourly", "@daily", "@midnight", "@weekly", "@monthly", "@yearly", "@annually"} ==>
              && LineAccepted(expression)
              && (NamesMinute(expression, y, m, d, h, mi) <==>
                    && mi == 0 && (alias != "@hourly" ==> h == 0)
                    && (alias == "@weekly" ==> WeekDayOfDate(y, m, d) == 0)
                    && (alias in {"@monthly", "@yearly", "@annually"} ==> d == 1)
                    && (alias in {"@yearly", "@annually"} ==> m == 1))
  {
    hide ReadAs, AliasOf, LineAccepted, NamesMinute, WeekDayOfDate;
    var alias := AliasOf(expression);
    AliasColumns(expression);
    if alias == "@hourly" {
      PlainColumns(expression, ["0", "*", "*", "*", "*"], y, m, d, h, mi);
    } else if alias in {"@daily", "@midnight"} {
      PlainColumns(expression, ["0", "0", "*", "*", "*"], y, m, d, h, mi);
    } else if alias == "@weekly" {
      PlainColumns(expression, ["0", "0", "*", "*", "0"], y, m, d, h, mi);
    } else if alias == "@monthly" {
      PlainColumns(expression, ["0", "0", "1", "*", "*"], y, m, d, h, mi);
    } else if alias in {"@yearly", "@annually"} {
      PlainColumns(expression, ["0", "0", "1", "1", "*"], y, m, d, h, mi);
    }
  }

  /** Nothing else that begins with an at sign is accepted, `@reboot` with its own error. */
  lemma OtherAliases(expression: string)
    requires |AliasOf(expression)| > 0 && AliasOf(expression)[0] == '@'
    requires AliasOf(expression) !in {"@hourly", "@daily", "@midnight", "@weekly", "@monthly", "@yearly", "@annually"}
    ensures !LineAccepted(expression)
    ensures forall e :: LineFails(expression, e) ==>
              e == if AliasOf(expression) == "@reboot" then RebootAlias else UnknownAlias
  {
    hide Trim, Collapse, Lower, Split;
    IsAlias(expression);
  }

  // ----- Elements written out -----

  /** A number as written, with any leading zeros. */
  datatype Numeral = Numeral(zeros: nat, v: nat)

  /** A value as written: a number or a name in any mixture of cases. */
  datatype Value = Number(n: Numeral) | Name(name: string, written: string)

  datatype Base = Star | QuestionMark | One(value: Value) | Range(low: Value, high: Value)

  /** Every character is, in lower case, a letter. */
  predicate Letters(s: string) {
    s != "" && forall i :: 0 <= i < |s| ==> 'a' <= LowerChar(s[i]) <= 'z'
  }

  predicate LowerCase(s: string) {
    s != "" && forall i :: 0 <= i < |s| ==> 'a' <= s[i] <= 'z'
  }

  ghost predicate NamesAreLetters(spec: FieldSpec) {
    forall n :: n in spec.names ==> LowerCase(n)
  }

  /** The format of a column. */
  function SpecOf(column: Column): FieldSpec {
    match column
    case Minute => MINUTE_SPEC
    case Hour => HOUR_SPEC
    case DayOfMonth => DOM_SPEC
    case Month => MONTH_SPEC
    case DayOfWeek => DOW_SPEC
  }

  lemma ColumnNames(column: Column)
    ensures NamesAreLetters(SpecOf(column))
  {
    hide LowerCase;
    match column
    case Month => MonthNames();
    case DayOfWeek => DayNames();
    case _ =>
  }

  lemma MonthNames()
    ensures forall n :: n in MONTH_NAMES ==> LowerCase(n)
  {
  }

  lemma DayNames()
    ensures forall n :: n in DAY_NAMES ==> LowerCase(n)
  {
  }

  predicate ValueFits(spec: FieldSpec, v: Value) {
    match v
    case Number(n) => spec.min <= n.v <= spec.max
    case Name(name, written) => name in spec.names && Lower(written) == name
  }

  function ValueMeans(spec: FieldSpec, v: Value): int
    requires ValueFits(spec, v)
  {
    match v
    case Number(n) => n.v
    case Name(name, _) => spec.names[name]
  }

  function Zeros(n: nat): string {
    seq(n, _ => '0')
  }

  function Digits(n: Numeral): string {
    Zeros(n.zeros) + FromNat(n.v)
  }

  function ValueText(v: Value): string {
    match v
    case Number(n) => Digits(n)
    case Name(_, written) => written
  }

  predicate BaseFits(spec: FieldSpec, b: Base) {
    match b
    case Star => true
    case QuestionMark => spec.allowQuestionMark
    case One(v) => ValueFits(spec, v)
    case Range(low, high) =>
      ValueFits(spec, low) && ValueFits(spec, high) && ValueMeans(spec, low) <= ValueMeans(spec, high)
  }

  function BaseText(b: Base): string {
    match b
    case Star => "*"
    case QuestionMark => "?"
    case One(v) => ValueText(v)
    case Range(low, high) => ValueText(low) + "-" + ValueText(high)
  }

  function ElementText(b: Base, step: Option<Numeral>): string {
    match step
    case None => BaseText(b)
    case Some(n) => BaseText(b) + "/" + Digits(n)
  }

  function StepOf(step: Option<Numeral>): nat {
    if step.Some? then step.value.v else 1
  }

  /** What an element says: from where to where, by how much; a lone value with a step runs to the end. */
  function ElementMeans(spec: FieldSpec, b: Base, step: Option<Numeral>): Span
    requires BaseFits(spec, b)
  {
    match b
    case Star => Span(spec.min, spec.max, StepOf(step))
    case QuestionMark => Span(spec.min, spec.max, StepOf(step))
    case One(v) => Span(ValueMeans(spec, v), if step.Some? then spec.max else ValueMeans(spec, v), StepOf(step))
    case Range(low, high) => Span(ValueMeans(spec, low), ValueMeans(spec, high), StepOf(step))
  }

  lemma {:induction false} LowerKeeps(s: string)
    ensures forall i :: 0 <= i < |s| ==> Lower(s)[i] == LowerChar(s[i])
  {
    if s != "" {
      LowerKeeps(s[1..]);
    }
  }

  lemma {:induction false} LeadingZeros(n: nat, s: string)
    requires AllDigits(s)
    ensures AllDigits(Zeros(n) + s) && ToNat(Zeros(n) + s) == ToNat(s)
  {
    var t := Zeros(n) + s;
    if |s| == 1 {
      assert t[..|t| - 1] == Zeros(n) && s[..0] == "";
      OnlyZeros(n);
    } else {
      LeadingZeros(n, s[..|s| - 1]);
      assert t[..|t| - 1] == Zeros(n) + s[..|s| - 1];
    }
  }

  lemma {:induction false} OnlyZeros(n: nat)
    ensures (forall i :: 0 <= i < n ==> IsDigit(Zeros(n)[i])) && ToNat(Zeros(n)) == 0
  {
    if n > 0 {
      OnlyZeros(n - 1);
      assert Zeros(n)[..n - 1] == Zeros(n - 1);
    }
  }

  /** Letters hold none of the characters the parser splits at, and are no number. */
  lemma LettersArePlain(s: string)
    requires Letters(s)
    ensures Trim(s) == s && '/' !in s && '-' !in s && ',' !in s && s != "*" && s != "?" && !AllDigits(s)
    ensures !IsSpace(s[0]) && !IsSpace(s[|s| - 1])
  {
    assert 'a' <= LowerChar(s[0]) <= 'z';
    assert 'a' <= LowerChar(s[|s| - 1]) <= 'z';
    TrimNothing(s);
  }

  lemma NumeralReads(n: Numeral)
    ensures AllDigits(Digits(n)) && ToNat(Digits(n)) == n.v
  {
    hide FromNat, ToNat, AllDigits, Zeros;
    FromNatToNat(n.v);
    LeadingZeros(n.zeros, FromNat(n.v));
  }

  /** A value's text is in one piece and is read as the value. */
  lemma ValueRoundTrip(spec: FieldSpec, v: Value)
    requires NamesAreLetters(spec) && ValueFits(spec, v)
    ensures var s := ValueText(v);
            && s != "" && Trim(s) == s && '/' !in s && '-' !in s && ',' !in s && s != "*" && s != "?"
            && !IsSpace(s[0]) && !IsSpace(s[|s| - 1])
            && ParseValue(spec, s) == Ok(ValueMeans(spec, v))
  {
    hide Trim, FromNat, IsSpace, ToNat, Lower, Letters, LowerCase, AllDigits, Zeros;
    match v {
      case Number(n) =>
        NumeralReads(n);
        DigitsArePlain(Digits(n));
        DigitEnds(Digits(n));
      case Name(name, written) =>
        LettersAnyCase(written);
        LettersArePlain(written);
    }
  }

  lemma LettersAnyCase(s: string)
    requires LowerCase(Lower(s))
    ensures Letters(s)
  {
    LowerKeeps(s);
  }

  /** The text of a base has no slash or comma in it and nothing to trim. */
  lemma BaseIsPlain(spec: FieldSpec, b: Base)
    requires NamesAreLetters(spec) && BaseFits(spec, b)
    ensures var s := BaseText(b); s != "" && Trim(s) == s && '/' !in s && ',' !in s
    ensures var s := BaseText(b); !IsSpace(s[0]) && !IsSpace(s[|s| - 1])
  {
    hide Trim, IsSpace, ValueText, NamesAreLetters, ValueFits;
    match b {
      case Star => SignIsPlain('*');
      case QuestionMark => SignIsPlain('?');
      case One(v) => ValueRoundTrip(spec, v);
      case Range(low, high) =>
        ValueRoundTrip(spec, low);
        ValueRoundTrip(spec, high);
        var (l, h) := (ValueText(low), ValueText(high));
        assert BaseText(b)[|l| + 1 + |h| - 1] == h[|h| - 1];
        TrimNothing(BaseText(b));
    }
  }

  lemma SignIsPlain(c: char)
    requires c == '*' || c == '?'
    ensures Trim([c]) == [c] && !IsSpace(c)
  {
    TrimNothing([c]);
  }

  lemma DigitEnds(s: string)
    requires AllDigits(s)
    ensures s != "" && !IsSpace(s[0]) && !IsSpace(s[|s| - 1])
  {
  }

  /** From where to where. */
  function BaseMeans(spec: FieldSpec, b: Base, stepped: bool): (int, int)
    requires BaseFits(spec, b)
  {
    match b
    case Star => (spec.min, spec.max)
    case QuestionMark => (spec.min, spec.max)
    case One(v) => (ValueMeans(spec, v), if stepped then spec.max else ValueMeans(spec, v))
    case Range(low, high) => (ValueMeans(spec, low), ValueMeans(spec, high))
  }

  lemma BaseRoundTrip(spec: FieldSpec, b: Base, stepped: bool)
    requires NamesAreLetters(spec) && BaseFits(spec, b)
    ensures ParseBase(spec, BaseText(b), stepped) == Ok(BaseMeans(spec, b, stepped))
  {
    hide ParseValue, ValueText, Split, ValueFits, ValueMeans, NamesAreLetters;
    match b {
      case Star =>
      case QuestionMark =>
      case One(v) => ValueRoundTrip(spec, v);
      case Range(low, high) =>
        var l, h := ValueText(low), ValueText(high);
        ValueRoundTrip(spec, low);
        ValueRoundTrip(spec, high);
        SplitAtFirst(l, '-', h);
        SplitNothing(h, '-');
        assert '-' in BaseText(b) by { assert BaseText(b)[|l|] == '-'; }
        assert BaseText(b) == l + ['-'] + h;
        assert |BaseText(b)| >= 2;
    }
  }

  /**
   * Every way of writing an element is read as what it says: a star, a question mark where it is
   * allowed, a value or a range of values, names in any case, each with or without a step.
   */
  lemma ElementRoundTrip(spec: FieldSpec, b: Base, step: Option<Numeral>)
    requires NamesAreLetters(spec)
    requires BaseFits(spec, b) && StepOf(step) >= 1
    ensures ParseElement(spec, ElementText(b, step)) == Ok(ElementMeans(spec, b, step))
  {
    hide Trim, FromNat, AllDigits, ToNat, Split, BaseText, ParseBase, ValueFits, ValueMeans, NamesAreLetters, Digits;
    var base := BaseText(b);
    BaseIsPlain(spec, b);
    BaseRoundTrip(spec, b, step.Some?);
    match step {
      case None => SplitNothing(base, '/');
      case Some(n) =>
        var digits := Digits(n);
        NumeralReads(n);
        DigitsArePlain(digits);
        SplitAtFirst(base, '/', digits);
        SplitNothing(digits, '/');
        SteppedTrims(base, digits);
        assert ElementText(b, step) == base + ['/'] + digits;
    }
  }

  /** In particular in every column of a line. */
  lemma ColumnRoundTrip(column: Column, b: Base, step: Option<Numeral>)
    requires BaseFits(SpecOf(column), b) && StepOf(step) >= 1
    ensures ParseElement(SpecOf(column), ElementText(b, step)) == Ok(ElementMeans(SpecOf(column), b, step))
  {
    hide ParseElement, ElementText, ElementMeans, BaseFits, SpecOf;
    ColumnNames(column);
    ElementRoundTrip(SpecOf(column), b, step);
  }

  // ----- And nothing else is read -----

  /** Every run of digits is a number with leading zeros. */
  lemma {:induction false} NumeralOf(s: string) returns (n: Numeral)
    requires AllDigits(s)
    ensures Digits(n) == s && n.v == ToNat(s)
    decreases |s|
  {
    var (front, d) := (s[..|s| - 1], DigitValue(s[|s| - 1]));
    assert s == front + [s[|s| - 1]];
    if front == "" {
      n := Numeral(0, d);
      assert Zeros(0) == "" && FromNat(d) == [Digit(d)];
      SameDigit(s[0]);
    } else {
      var m := NumeralOf(front);
      SameDigit(s[|s| - 1]);
      if m.v == 0 {
        n := Numeral(m.zeros + 1, d);
        assert FromNat(0) == "0" && FromNat(d) == [Digit(d)];
        assert Zeros(m.zeros + 1) == Zeros(m.zeros) + "0";
      } else {
        n := Numeral(m.zeros, 10 * m.v + d);
        assert FromNat(10 * m.v + d) == FromNat(m.v) + [Digit(d)];
        assert Zeros(m.zeros) + (FromNat(m.v) + [Digit(d)]) == (Zeros(m.zeros) + FromNat(m.v)) + [Digit(d)];
      }
    }
  }

  lemma SameDigit(c: char)
    requires '0' <= c <= '9'
    ensures Digit(DigitValue(c)) == c
  {
  }

  /** No white space, as in a column of a line. */
  predicate Solid(s: string) {
    forall i :: 0 <= i < |s| ==> !IsSpace(s[i])
  }

  lemma SolidTrims(s: string)
    requires Solid(s)
    ensures Trim(s) == s
  {
    TrimNothing(s);
  }

  lemma {:induction false} PiecesAreSolid(s: string, c: char)
    requires Solid(s)
    ensures forall k :: 0 <= k < |Split(s, c)| ==> Solid(Split(s, c)[k])
  {
    hide IsSpace;
    if s != "" {
      PiecesAreSolid(s[1..], c);
    }
  }

  lemma TwoPieces(s: string, c: char)
    requires |Split(s, c)| == 2
    ensures s == Split(s, c)[0] + [c] + Split(s, c)[1]
  {
    hide Split;
    JoinSplit(s, c);
    var pieces := Split(s, c);
    assert pieces[1..] == [pieces[1]] && Join([pieces[1]], [c]) == pieces[1];
  }

  lemma OnePiece(s: string, c: char)
    requires |Split(s, c)| == 1
    ensures s == Split(s, c)[0]
  {
    hide Split;
    JoinSplit(s, c);
  }

  lemma ReadValue(spec: FieldSpec, s: string) returns (v: Value)
    requires Solid(s) && ParseValue(spec, s).Ok?
    ensures ValueFits(spec, v) && ValueText(v) == s && ValueMeans(spec, v) == ParseValue(spec, s).value
  {
    hide Trim, ToNat, Lower, IsSpace, Digits;
    SolidTrims(s);
    if AllDigits(s) {
      var n := NumeralOf(s);
      v := Number(n);
    } else {
      v := Name(Lower(s), s);
    }
  }

  lemma ReadBase(spec: FieldSpec, s: string, stepped: bool) returns (b: Base)
    requires Solid(s) && ParseBase(spec, s, stepped).Ok?
    ensures BaseFits(spec, b) && BaseText(b) == s && BaseMeans(spec, b, stepped) == ParseBase(spec, s, stepped).value
  {
    hide ParseValue, ValueText, ValueFits, ValueMeans, Split, IsSpace;
    if s == "*" {
      b := Star;
    } else if s == "?" && spec.allowQuestionMark {
      b := QuestionMark;
    } else if '-' in s {
      PiecesAreSolid(s, '-');
      TwoPieces(s, '-');
      var low := ReadValue(spec, Split(s, '-')[0]);
      var high := ReadValue(spec, Split(s, '-')[1]);
      b := Range(low, high);
    } else {
      var v := ReadValue(spec, s);
      b := One(v);
    }
  }

  /**
   * The grammar of a column's elements: those accepted are exactly the written forms, a star, a
   * question mark where allowed, a value or a range in order, each with or without a positive step,
   * and they mean what these say.
   */
  lemma ElementGrammar(spec: FieldSpec, s: string, span: Span)
    requires NamesAreLetters(spec) && Solid(s)
    ensures ParseElement(spec, s) == Ok(span) <==>
            exists b, step :: BaseFits(spec, b) && StepOf(step) >= 1 && s == ElementText(b, step)
                              && span == ElementMeans(spec, b, step)
  {
    hide ParseElement, ElementText, ElementMeans, BaseFits, NamesAreLetters, Solid;
    if ParseElement(spec, s) == Ok(span) {
      var b, step := ReadElement(spec, s);
      ElementRoundTrip(spec, b, step);
    }
    if b, step :| BaseFits(spec, b) && StepOf(step) >= 1 && s == ElementText(b, step)
                  && span == ElementMeans(spec, b, step) {
      ElementRoundTrip(spec, b, step);
    }
  }

  lemma ReadElement(spec: FieldSpec, s: string) returns (b: Base, step: Option<Numeral>)
    requires Solid(s) && ParseElement(spec, s).Ok?
    ensures BaseFits(spec, b) && StepOf(step) >= 1 && s == ElementText(b, step)
  {
    hide Trim, Split, ParseBase, BaseFits, BaseText, ToNat, AllDigits, Digits, IsSpace;
    SolidTrims(s);
    PiecesAreSolid(s, '/');
    var pieces := Split(s, '/');
    SolidTrims(pieces[0]);
    b := ReadBase(spec, pieces[0], |pieces| == 2);
    if |pieces| == 2 {
      TwoPieces(s, '/');
      SolidTrims(pieces[1]);
      var n := NumeralOf(pieces[1]);
      step := Some(n);
    } else {
      OnePiece(s, '/');
      step := None;
    }
  }

  const MONTHS: seq<string> := ["jan", "feb", "mar", "apr", "may", "jun", "jul", "aug", "sep", "oct", "nov", "dec"]
  const DAYS: seq<string> := ["sun", "mon", "tue", "wed", "thu", "fri", "sat"]

  /** Months and days are named in their order, January the first and Sunday at zero, in any case. */
  lemma NamesInOrder(written: string)
    ensures forall k :: 0 <= k < 12 && Lower(written) == MONTHS[k] ==>
              BaseFits(MONTH_SPEC, One(Name(MONTHS[k], written)))
              && ValueMeans(MONTH_SPEC, Name(MONTHS[k], written)) == k + 1
    ensures forall k :: 0 <= k < 7 && Lower(written) == DAYS[k] ==>
              BaseFits(DOW_SPEC, One(Name(DAYS[k], written))) && ValueMeans(DOW_SPEC, Name(DAYS[k], written)) == k
  {
    hide Lower;
    forall k | 0 <= k < 12
      ensures MONTHS[k] in MONTH_NAMES && MONTH_NAMES[MONTHS[k]] == k + 1
    {
      MonthInOrder(k);
    }
    forall k | 0 <= k < 7
      ensures DAYS[k] in DAY_NAMES && DAY_NAMES[DAYS[k]] == k
    {
      DayInOrder(k);
    }
  }

  lemma MonthInOrder(k: nat)
    requires k < 12
    ensures MONTHS[k] in MONTH_NAMES && MONTH_NAMES[MONTHS[k]] == k + 1
  {
  }

  lemma DayInOrder(k: nat)
    requires k < 7
    ensures DAYS[k] in DAY_NAMES && DAY_NAMES[DAYS[k]] == k
  {
  }

  lemma SteppedTrims(base: string, digits: string)
    requires base != "" && !IsSpace(base[0]) && AllDigits(digits)
    ensures Trim(base + "/" + digits) == base + "/" + digits
  {
    TrimNothing(base + "/" + digits);
  }

  lemma {:induction false} JoinChars(parts: seq<string>, sep: string, p: char -> bool)
    requires forall i :: 0 <= i < |sep| ==> p(sep[i])
    requires forall k :: 0 <= k < |parts| ==> forall i :: 0 <= i < |parts[k]| ==> p(parts[k][i])
    ensures forall i :: 0 <= i < |Join(parts, sep)| ==> p(Join(parts, sep)[i])
  {
    if |parts| > 1 {
      JoinChars(parts[1..], sep, p);
    }
  }

  predicate IsListChar(c: char) { IsDigit(c) || c == ',' }

  /** A list of numbers is made of digits and commas, and starts with a digit. */
  lemma ListTextChars(values: seq<nat>)
    requires |values| > 0
    ensures ListText(values) != "" && IsDigit(ListText(values)[0])
    ensures forall i :: 0 <= i < |ListText(values)| ==> IsListChar(ListText(values)[i])
  {
    var parts := seq(|values|, i requires 0 <= i < |values| => FromNat(values[i]));
    assert forall k :: 0 <= k < |parts| ==> AllDigits(parts[k]);
    JoinChars(parts, ",", IsListChar);
  }

  /** A field listing numbers in range is accepted and denotes those numbers and no others. */
  lemma ListRoundTrip(spec: FieldSpec, values: seq<nat>)
    requires Proper(spec)
    requires |values| > 0 && forall i :: 0 <= i < |values| ==> spec.min <= values[i] <= spec.max
    ensures FieldAccepted(spec, ListText(values))
    ensures forall v :: FieldDenotes(spec, ListText(values), v) <==> v in values
    ensures !IsWildcard(spec, ListText(values))
  {
    hide ListText, ParseElement, FromNat, IsListChar;
    var text := ListText(values);
    var parts := ListFields(values);
    forall k | 0 <= k < |parts|
      ensures ParseElement(spec, parts[k]) == Ok(Span(values[k], values[k], 1))
    {
      NumberElement(spec, values[k]);
    }
    forall v
      ensures FieldDenotes(spec, text, v) <==> v in values
    {
      if v in values {
        var k :| 0 <= k < |values| && values[k] == v;
        assert v == Nth(Span(v, v, 1), 0);
        assert InSpan(ParseElement(spec, parts[k]).value, v);
      }
      if FieldDenotes(spec, text, v) {
        var k :| 0 <= k < |parts| && InSpan(ParseElement(spec, parts[k]).value, v);
        SpanFromStart(Span(values[k], values[k], 1), v);
      }
    }
  }

  /** Splitting the text of a list gives back its numbers, and nothing is trimmed off it. */
  lemma ListFields(values: seq<nat>) returns (parts: seq<string>)
    requires |values| > 0
    ensures var text := ListText(values);
            Field(text) == text && text != "" && text != "*" && text != "?" && Split(text, ',') == parts
    ensures |parts| == |values| && forall k :: 0 <= k < |parts| ==> parts[k] == FromNat(values[k])
  {
    hide FromNat;
    parts := seq(|values|, i requires 0 <= i < |values| => FromNat(values[i]));
    var text := ListText(values);
    ListTextChars(values);
    assert IsListChar(text[|text| - 1]);
    TrimNothing(text);
    forall k | 0 <= k < |parts|
      ensures ',' !in parts[k]
    {
      DigitsArePlain(parts[k]);
    }
    SplitJoin(parts, ',');
  }

  lemma CollapseNothing(s: string)
    requires forall i :: 0 <= i < |s| ==> !IsSpace(s[i])
    ensures Collapse(s) == s
  {
  }

  lemma CollapseStep(s: string)
    requires s != "" && !IsSpace(s[0])
    ensures Collapse(s) == [s[0]] + Collapse(s[1..])
  {
    hide IsSpace;
  }

  lemma CollapseBlank(rest: string)
    requires rest != "" && !IsSpace(rest[0])
    ensures Collapse(" " + rest) == " " + Collapse(rest)
  {
    assert IsSpace(' ');
    hide IsSpace;
    var s := " " + rest;
    assert s[0] == ' ' && s[1..] == rest;
    assert TrimStart(rest) == rest;
  }

  lemma {:induction false} CollapseWord(word: string, rest: string)
    requires forall i :: 0 <= i < |word| ==> !IsSpace(word[i])
    requires rest != "" && !IsSpace(rest[0])
    ensures Collapse(word + " " + rest) == word + " " + Collapse(rest)
  {
    hide IsSpace, Collapse, TrimStart;
    var s := word + " " + rest;
    if word == "" {
      assert s == " " + rest;
      CollapseBlank(rest);
      assert word + " " + Collapse(rest) == " " + Collapse(rest);
    } else {
      CollapseWord(word[1..], rest);
      assert s[1..] == word[1..] + " " + rest;
      CollapseStep(s);
      assert [word[0]] + (word[1..] + " " + Collapse(rest)) == word + " " + Collapse(rest);
    }
  }

  ghost predicate IsWord(s: string) {
    s != "" && forall i :: 0 <= i < |s| ==> !IsSpace(s[i])
  }

  /** Words joined by single spaces have no white space to collapse or trim. */
  lemma {:induction false} WordsCollapse(words: seq<string>)
    requires |words| > 0 && forall k :: 0 <= k < |words| ==> IsWord(words[k])
    ensures var line := Join(words, " ");
            Collapse(line) == line && line != "" && !IsSpace(line[0]) && !IsSpace(line[|line| - 1])
            && line[0] == words[0][0]
  {
    if |words| == 1 {
      CollapseNothing(words[0]);
    } else {
      WordsCollapse(words[1..]);
      CollapseWord(words[0], Join(words[1..], " "));
    }
  }

  /** The five columns of a schedule as lists of numbers. */
  function LineText(minutes: seq<nat>, hours: seq<nat>, doms: seq<nat>, months: seq<nat>, dows: seq<nat>): string {
    Join([ListText(minutes), ListText(hours), ListText(doms), ListText(months), ListText(dows)], " ")
  }

  /**
   * Every schedule can be written down: the line that lists its numbers column by column is
   * accepted, and means those numbers.
   */
  lemma LineRoundTrip(
    minutes: seq<nat>, hours: seq<nat>, doms: seq<nat>, months: seq<nat>, dows: seq<nat>, p: ParsedCron)
    requires |minutes| > 0 && forall i :: 0 <= i < |minutes| ==> minutes[i] <= 59
    requires |hours| > 0 && forall i :: 0 <= i < |hours| ==> hours[i] <= 23
    requires |doms| > 0 && forall i :: 0 <= i < |doms| ==> 1 <= doms[i] <= 31
    requires |months| > 0 && forall i :: 0 <= i < |months| ==> 1 <= months[i] <= 12
    requires |dows| > 0 && forall i :: 0 <= i < |dows| ==> dows[i] <= 6
    ensures var line := LineText(minutes, hours, doms, months, dows);
            LineAccepted(line) &&
            (LineDenotes(line, p) <==>
             && (forall v :: v in p.minutes <==> v in minutes)
             && (forall v :: v in p.hours <==> v in hours)
             && (forall v :: v in p.daysOfMonth <==> v in doms)
             && (forall v :: v in p.months <==> v in months)
             && (forall v :: v in p.daysOfWeek <==> v in dows)
             && p.dayOfMonthRestricted && p.dayOfWeekRestricted)
  {
    hide ListText, FieldAccepted, FieldDenotes, IsWildcard;
    var line := LineText(minutes, hours, doms, months, dows);
    LineParts(minutes, hours, doms, months, dows);
    SpecsProper();
    ListRoundTrip(MINUTE_SPEC, minutes);
    ListRoundTrip(HOUR_SPEC, hours);
    ListRoundTrip(DOM_SPEC, doms);
    ListRoundTrip(MONTH_SPEC, months);
    ListRoundTrip(DOW_SPEC, dows);
  }

  lemma ListIsWord(values: seq<nat>)
    requires |values| > 0
    ensures IsWord(ListText(values)) && IsDigit(ListText(values)[0]) && ' ' !in ListText(values)
  {
    ListTextChars(values);
  }

  lemma LineParts(minutes: seq<nat>, hours: seq<nat>, doms: seq<nat>, months: seq<nat>, dows: seq<nat>)
    requires |minutes| > 0 && |hours| > 0 && |doms| > 0 && |months| > 0 && |dows| > 0
    ensures var line := LineText(minutes, hours, doms, months, dows);
            && Trim(line) != "" && Normalize(line) == Ok(line)
            && Split(line, ' ')
               == [ListText(minutes), ListText(hours), ListText(doms), ListText(months), ListText(dows)]
  {
    hide ListText, Lower;
    var words := [ListText(minutes), ListText(hours), ListText(doms), ListText(months), ListText(dows)];
    ListIsWord(minutes);
    ListIsWord(hours);
    ListIsWord(doms);
    ListIsWord(months);
    ListIsWord(dows);
    WordsCollapse(words);
    TrimNothing(Join(words, " "));
    SplitJoin(words, ' ');
  }
}
