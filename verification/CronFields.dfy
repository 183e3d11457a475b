/** Reading a five-field crontab line into the value sets the search matches against. */
module CronFields {
  import opened Text
  import opened Wrappers

  datatype FieldSpec = FieldSpec(min: int, max: int, names: map<string, int>, allowQuestionMark: bool)

  const MONTH_NAMES: map<string, int> := map[
    "jan" := 1, "feb" := 2, "mar" := 3, "apr" := 4, "may" := 5, "jun" := 6,
    "jul" := 7, "aug" := 8, "sep" := 9, "oct" := 10, "nov" := 11, "dec" := 12]

  const DAY_NAMES: map<string, int> := map[
    "sun" := 0, "mon" := 1, "tue" := 2, "wed" := 3, "thu" := 4, "fri" := 5, "sat" := 6]

  const MINUTE_SPEC := FieldSpec(0, 59, map[], false)
  const HOUR_SPEC := FieldSpec(0, 23, map[], false)
  const DOM_SPEC := FieldSpec(1, 31, map[], true)
  const MONTH_SPEC := FieldSpec(1, 12, MONTH_NAMES, false)
  const DOW_SPEC := FieldSpec(0, 7, DAY_NAMES, true)

  datatype FieldError =
    | FieldIsEmpty
    | QuestionMarkNotAllowed
    | EmptyElement
    | ManySteps
    | BadStep
    | BadRange
    | RangeWraps
    | EmptyValue
    | OutOfRange
    | Unrecognized
    | MatchesNothing

  /** The values `start`, `start + step`, ... up to `end`. */
  datatype Span = Span(start: int, end: int, step: int)

  ghost predicate Proper(spec: FieldSpec) {
    0 <= spec.min <= spec.max && forall n :: n in spec.names ==> spec.min <= spec.names[n] <= spec.max
  }

  lemma SpecsProper()
    ensures Proper(MINUTE_SPEC) && Proper(HOUR_SPEC) && Proper(DOM_SPEC) && Proper(MONTH_SPEC) && Proper(DOW_SPEC)
  {
  }

  // ----- One value, one list element -----

  function ParseValue(spec: FieldSpec, token: string): (r: Result<int, FieldError>)
    ensures Proper(spec) && r.Ok? ==> spec.min <= r.value <= spec.max
  {
    var trimmed := Trim(token);
    if trimmed == "" then Err(EmptyValue)
    else if AllDigits(trimmed) then
      var value := ToNat(trimmed);
      if value < spec.min || value > spec.max then Err(OutOfRange) else Ok(value)
    else if Lower(trimmed) in spec.names then Ok(spec.names[Lower(trimmed)])
    else Err(Unrecognized)
  }

  /** The step after a slash; one when there is none. */
  function ParseStep(pieces: seq<string>): (r: Result<int, FieldError>)
    ensures r.Ok? ==> r.value >= 1
  {
    if |pieces| != 2 then Ok(1)
    else
      var token := Trim(pieces[1]);
      if !AllDigits(token) || ToNat(token) == 0 then Err(BadStep) else Ok(ToNat(token))
  }

  /** The values before the slash: everything, a range, or one value (to the maximum, with a step). */
  function ParseBase(spec: FieldSpec, base: string, stepped: bool): (r: Result<(int, int), FieldError>)
    ensures Proper(spec) && r.Ok? ==> spec.min <= r.value.0 <= r.value.1 <= spec.max
  {
    if base == "*" || (base == "?" && spec.allowQuestionMark) then Ok((spec.min, spec.max))
    else if '-' in base then
      var bounds := Split(base, '-');
      if |bounds| != 2 then Err(BadRange)
      else
        match ParseValue(spec, bounds[0])
        case Err(e) => Err(e)
        case Ok(start) =>
          match ParseValue(spec, bounds[1])
          case Err(e) => Err(e)
          case Ok(end) => if start > end then Err(RangeWraps) else Ok((start, end))
    else
      match ParseValue(spec, base)
      case Err(e) => Err(e)
      case Ok(start) => Ok((start, if stepped then spec.max else start))
  }

  /** One element of a field's comma-separated list. */
  function ParseElement(spec: FieldSpec, element: string): (r: Result<Span, FieldError>)
    ensures Proper(spec) && r.Ok? ==>
              spec.min <= r.value.start <= r.value.end <= spec.max && r.value.step >= 1
  {
    var part := Trim(element);
    var pieces := Split(part, '/');
    if part == "" then Err(EmptyElement)
    else if |pieces| > 2 then Err(ManySteps)
    else
      match ParseStep(pieces)
      case Err(e) => Err(e)
      case Ok(step) =>
        match ParseBase(spec, Trim(pieces[0]), |pieces| == 2)
        case Err(e) => Err(e)
        case Ok((start, end)) => Ok(Span(start, end, step))
  }

  // ----- What a field denotes -----

  function Nth(s: Span, i: nat): int { s.start + i * s.step }

  ghost predicate InSpan(s: Span, v: int) {
    v <= s.end && exists i: nat :: v == Nth(s, i)
  }

  /** The elements of a field's list, all readable. */
  ghost predicate Readable(spec: FieldSpec, elements: seq<string>) {
    forall k :: 0 <= k < |elements| ==> ParseElement(spec, elements[k]).Ok?
  }

  /** `v` is a value of some element. */
  ghost predicate Denotes(spec: FieldSpec, elements: seq<string>, v: int)
    requires Readable(spec, elements)
  {
    exists k :: 0 <= k < |elements| && InSpan(ParseElement(spec, elements[k]).value, v)
  }

  function Field(raw: string): string { Trim(raw) }

  predicate IsWildcard(spec: FieldSpec, raw: string) {
    Field(raw) == "*" || (Field(raw) == "?" && spec.allowQuestionMark)
  }

  /** The error of the first element that cannot be read. */
  ghost predicate FirstError(spec: FieldSpec, elements: seq<string>, e: FieldError) {
    exists k :: 0 <= k < |elements| && ParseElement(spec, elements[k]) == Err(e) && Readable(spec, elements[..k])
  }

  /** Adds every value of a span to a set. */
  method AddSpan(values: set<int>, s: Span) returns (r: set<int>)
    requires s.step >= 1
    ensures forall v :: v in r <==> v in values || InSpan(s, v)
  {
    r := values;
    var value := s.start;
    ghost var i: nat := 0;
    while value <= s.end
      invariant value == Nth(s, i)
      invariant forall v :: v in r <==> v in values || (v <= s.end && exists j: nat :: j < i && v == Nth(s, j))
      decreases s.end - value
    {
      r := r + {value};
      value := value + s.step;
      i := i + 1;
    }
    forall j: nat | Nth(s, j) <= s.end
      ensures j < i
    {
      assert j >= i ==> j * s.step >= i * s.step;
    }
  }

  /**
   * One field of the line. Accepted exactly when it is non-empty, uses `?` only where allowed and
   * every element can be read; then its values are what the elements denote, never empty and in
   * range. A rejection reports the first thing that is wrong.
   */
  method ParseField(spec: FieldSpec, raw: string) returns (r: Result<(set<int>, bool), FieldError>)
    requires Proper(spec)
    ensures var elements := Split(Field(raw), ',');
            match r
            case Ok((values, wildcard)) =>
              && Field(raw) != "" && (Field(raw) == "?" ==> spec.allowQuestionMark)
              && Readable(spec, elements)
              && (forall v :: v in values <==> Denotes(spec, elements, v))
              && (exists v :: v in values) && (forall v :: v in values ==> spec.min <= v <= spec.max)
              && wildcard == IsWildcard(spec, raw)
              && (wildcard ==> forall v :: spec.min <= v <= spec.max ==> v in values)
            case Err(e) =>
              if Field(raw) == "" then e == FieldIsEmpty
              else if Field(raw) == "?" && !spec.allowQuestionMark then e == QuestionMarkNotAllowed
              else FirstError(spec, elements, e)
  {
    hide ParseElement, InSpan, Split, Trim, Proper;
    var field := Trim(raw);
    if field == "" {
      return Err(FieldIsEmpty);
    }
    if field == "?" && !spec.allowQuestionMark {
      return Err(QuestionMarkNotAllowed);
    }
    var wildcard := field == "*" || (field == "?" && spec.allowQuestionMark);
    var values: set<int> := {};
    var elements := Split(field, ',');
    var k := 0;
    while k < |elements|
      invariant 0 <= k <= |elements|
      invariant Readable(spec, elements[..k])
      invariant forall v :: v in values <==> Denotes(spec, elements[..k], v)
    {
      var span := ParseElement(spec, elements[k]);
      if span.Err? {
        return Err(span.error);
      }
      assert elements[..k + 1] == elements[..k] + [elements[k]];
      ghost var was := values;
      values := AddSpan(values, span.value);
      forall v
        ensures v in values <==> Denotes(spec, elements[..k + 1], v)
      {
        DenotesMore(spec, elements[..k], elements[k], v);
      }
      k := k + 1;
    }
    assert elements[..k] == elements;
    InRange(spec, elements);
    if values == {} {
      return Err(MatchesNothing);
    }
    if wildcard {
      WildcardIsEverything(spec, raw);
    }
    return Ok((values, wildcard));
  }

  /** A readable list denotes something, and nothing out of range. */
  lemma InRange(spec: FieldSpec, elements: seq<string>)
    requires Proper(spec)
    requires |elements| >= 1 && Readable(spec, elements)
    ensures exists v :: Denotes(spec, elements, v)
    ensures forall v :: Denotes(spec, elements, v) ==> spec.min <= v <= spec.max
  {
    hide ParseElement;
    var first := ParseElement(spec, elements[0]).value;
    assert first.start == Nth(first, 0);
    assert Denotes(spec, elements, first.start);
    forall v | Denotes(spec, elements, v)
      ensures spec.min <= v <= spec.max
    {
      var k :| 0 <= k < |elements| && InSpan(ParseElement(spec, elements[k]).value, v);
      SpanFromStart(ParseElement(spec, elements[k]).value, v);
    }
  }

  lemma SpanFromStart(s: Span, v: int)
    requires s.step >= 1 && InSpan(s, v)
    ensures s.start <= v <= s.end
  {
    var i: nat :| v == Nth(s, i);
    assert i * s.step >= 0;
  }

  lemma DenotesMore(spec: FieldSpec, elements: seq<string>, element: string, v: int)
    requires Readable(spec, elements) && ParseElement(spec, element).Ok?
    ensures Readable(spec, elements + [element])
    ensures Denotes(spec, elements + [element], v) <==>
            Denotes(spec, elements, v) || InSpan(ParseElement(spec, element).value, v)
  {
    hide ParseElement, InSpan;
    var all := elements + [element];
    assert forall k :: 0 <= k < |elements| ==> all[k] == elements[k];
    assert all[|elements|] == element;
  }

  /** A bare `*` or `?` matches every value in range. */
  lemma WildcardIsEverything(spec: FieldSpec, raw: string)
    requires Proper(spec)
    requires IsWildcard(spec, raw)
    ensures var elements := Split(Field(raw), ',');
            Readable(spec, elements) && forall v :: spec.min <= v <= spec.max ==> Denotes(spec, elements, v)
  {
    var field := Field(raw);
    SplitNothing(field, ',');
    SplitNothing(field, '/');
    TrimNothing(field);
    var span := Span(spec.min, spec.max, 1);
    assert ParseElement(spec, field) == Ok(span);
    forall v | spec.min <= v <= spec.max
      ensures InSpan(span, v)
    {
      assert v == Nth(span, v - spec.min);
    }
  }
}
