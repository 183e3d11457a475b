/**
 * A time zone as an offset function, and the resolution of wall-clock readings to instants.
 *
 * Instants and wall-clock ("naive") readings are both milliseconds since the epoch. A zone gives
 * the offset of its wall clock from UTC at every instant; its data is a parameter.
 */
module Zone {
  import opened Calendar

  const MS_MINUTE := 60_000
  const MS_HOUR := 3_600_000
  const MS_DAY := 86_400_000

  /** No zone is more than fourteen hours from UTC. */
  const MAX_OFFSET := 14 * MS_HOUR

  /** The offset of the zone's wall clock from UTC, in milliseconds, at an instant. */
  type Zone = int -> int

  ghost predicate Bounded(z: Zone) {
    forall i :: -MAX_OFFSET <= z(i) <= MAX_OFFSET
  }

  ghost predicate WholeMinuteOffsets(z: Zone) {
    forall i {:trigger Aligned(z, i)} :: Aligned(z, i)
  }

  ghost predicate Aligned(z: Zone, i: int) {
    z(i) % MS_MINUTE == 0
  }

  ghost predicate WholeMinuteTransitions(z: Zone) {
    forall i, j {:trigger SameMinute(i, j)} :: SameMinute(i, j) ==> z(i) == z(j)
  }

  ghost predicate SameMinute(i: int, j: int) {
    i / MS_MINUTE == j / MS_MINUTE
  }

  /** At most one transition in any span as wide as the two probes a day either side. */
  ghost predicate Isolated(z: Zone) {
    forall a, b, c {:trigger ShortSpan(a, b, c)} :: ShortSpan(a, b, c) ==> z(a) == z(b) || z(b) == z(c)
  }

  ghost predicate ShortSpan(a: int, b: int, c: int) {
    a <= b <= c <= a + 2 * MS_DAY
  }

  ghost predicate WellFormed(z: Zone) {
    Bounded(z) && WholeMinuteOffsets(z) && WholeMinuteTransitions(z) && Isolated(z)
  }

  predicate WholeMinute(t: int) {
    t % MS_MINUTE == 0
  }

  /** The wall-clock reading at an instant. */
  function Local(z: Zone, instant: int): int {
    instant + z(instant)
  }

  /** The reading truncated to the second, as the formatter shows it. */
  function Reading(z: Zone, instant: int): int {
    instant / 1000 * 1000 + z(instant)
  }

  /** The first reading of the year 100. */
  const YEAR_100 := DayFromYear(100) * MS_DAY

  /** A reading taken apart by the formatter, which leaves the era out, and put together by `Date.UTC`. */
  function AsUTC(t: int): (r: int)
    ensures r == t <==> t >= YEAR_100
    ensures r >= YEAR_100 && r % MS_DAY == t % MS_DAY
    ensures t < YEAR_100 ==> r >= t + 198 * 365 * MS_DAY
  {
    hide DayFromYear, ShownDay;
    ReadBack(t / MS_DAY);
    SameTimeOfDay(ShownDay(t / MS_DAY), t % MS_DAY);
    ShownDay(t / MS_DAY) * MS_DAY + t % MS_DAY
  }

  lemma SameTimeOfDay(day: int, time: int)
    requires 0 <= time < MS_DAY
    ensures (day * MS_DAY + time) % MS_DAY == time
  {
  }

  /** `toNaive`. */
  function ToNaive(z: Zone, instant: int): int {
    AsUTC(Reading(z, instant))
  }

  /** `offsetAt`: the displayed reading minus the instant, both in whole seconds. */
  function OffsetAt(z: Zone, instant: int): (offset: int)
    ensures offset == z(instant) <==> Reading(z, instant) >= YEAR_100
  {
    ToNaive(z, instant) - instant / 1000 * 1000
  }

  /** Some instant shows this reading. */
  ghost predicate Shown(z: Zone, naive: int) {
    exists i :: Local(z, i) == naive
  }

  /** `r` is the first instant at which the wall clock has reached `naive`. */
  ghost predicate IsFirstReach(z: Zone, naive: int, r: int) {
    Local(z, r) >= naive && forall i :: i < r ==> Local(z, i) < naive
  }

  ghost function FirstReachFrom(z: Zone, naive: int, i: int): (r: int)
    requires Bounded(z)
    requires i <= naive + MAX_OFFSET
    requires forall k :: k < i ==> Local(z, k) < naive
    ensures IsFirstReach(z, naive, r)
    decreases naive + MAX_OFFSET - i
  {
    if Local(z, i) >= naive then i else FirstReachFrom(z, naive, i + 1)
  }

  /** The first instant at which the wall clock reaches `naive`. */
  ghost function Resolve(z: Zone, naive: int): (r: int)
    requires Bounded(z)
    ensures IsFirstReach(z, naive, r)
    ensures naive - MAX_OFFSET <= r <= naive + MAX_OFFSET
  {
    assert Local(z, naive + MAX_OFFSET) >= naive;
    FirstReachFrom(z, naive, naive - MAX_OFFSET)
  }

  /** Later readings are reached no earlier. */
  lemma ResolveMonotone(z: Zone, n1: int, n2: int)
    requires Bounded(z)
    requires n1 <= n2
    ensures Resolve(z, n1) <= Resolve(z, n2)
  {
    var r1, r2 := Resolve(z, n1), Resolve(z, n2);
    assert r2 < r1 ==> Local(z, r2) < n1;
  }

  /** `Resolve` is the one instant with the first-reach property. */
  lemma ResolveUnique(z: Zone, naive: int, r: int)
    requires Bounded(z)
    requires IsFirstReach(z, naive, r)
    ensures r == Resolve(z, naive)
  {
    var s := Resolve(z, naive);
    assert r < s ==> Local(z, r) < naive;
    assert s < r ==> Local(z, s) < naive;
  }

  // ----- The probe window around a reading -----

  /** Inside the window every offset is one of the two probed, and the change happens once. */
  lemma Window(z: Zone, naive: int)
    requires WellFormed(z)
    ensures forall x :: naive - MS_DAY <= x <= naive + MS_DAY ==>
              z(x) == z(naive - MS_DAY) || z(x) == z(naive + MS_DAY)
    ensures forall x, y :: naive - MS_DAY <= x <= y <= naive + MS_DAY && z(x) == z(naive + MS_DAY) ==>
              z(y) == z(naive + MS_DAY)
  {
    var lo, hi := naive - MS_DAY, naive + MS_DAY;
    forall x | lo <= x <= hi
      ensures z(x) == z(lo) || z(x) == z(hi)
    {
      assert ShortSpan(lo, x, hi);
    }
    forall x, y | lo <= x <= y <= hi && z(x) == z(hi)
      ensures z(y) == z(hi)
    {
      assert ShortSpan(lo, y, hi) && ShortSpan(lo, x, y);
    }
  }

  /** Readings before the window are too early whatever the offset. */
  lemma FirstReachInWindow(z: Zone, naive: int, r: int)
    requires Bounded(z)
    requires Local(z, r) >= naive
    requires forall i :: naive - MS_DAY <= i < r ==> Local(z, i) < naive
    ensures IsFirstReach(z, naive, r)
  {
  }

  /** `candidate` shows the reading under the offset that produced it. */
  ghost predicate Valid(z: Zone, naive: int, offset: int) {
    z(naive - offset) == offset
  }

  /** Some instant shows the reading exactly when one of the two candidates does. */
  lemma ShownByCandidate(z: Zone, naive: int)
    requires WellFormed(z)
    ensures Shown(z, naive) <==>
            Valid(z, naive, z(naive - MS_DAY)) || Valid(z, naive, z(naive + MS_DAY))
  {
    Window(z, naive);
    if Shown(z, naive) {
      var i :| Local(z, i) == naive;
      assert naive - MS_DAY <= i <= naive + MS_DAY;
    }
    if Valid(z, naive, z(naive - MS_DAY)) {
      assert Local(z, naive - z(naive - MS_DAY)) == naive;
    }
    if Valid(z, naive, z(naive + MS_DAY)) {
      assert Local(z, naive - z(naive + MS_DAY)) == naive;
    }
  }

  /** The earlier valid candidate is the first instant to reach the reading. */
  lemma ValidCandidateIsFirst(z: Zone, naive: int, r: int)
    requires WellFormed(z)
    requires
      var (before, after) := (z(naive - MS_DAY), z(naive + MS_DAY));
      var (a, b) := (naive - before, naive - after);
      || (Valid(z, naive, before) && !Valid(z, naive, after) && r == a)
      || (!Valid(z, naive, before) && Valid(z, naive, after) && r == b)
      || (Valid(z, naive, before) && Valid(z, naive, after) && r == if a <= b then a else b)
    ensures IsFirstReach(z, naive, r)
  {
    Window(z, naive);
    FirstReachInWindow(z, naive, r);
  }

  /** With no valid candidate the clock jumped forward over the reading, between the candidates. */
  lemma GapOpens(z: Zone, naive: int)
    requires WellFormed(z)
    requires !Shown(z, naive)
    ensures
      var (before, after) := (z(naive - MS_DAY), z(naive + MS_DAY));
      before < after && z(naive - after) == before && z(naive - before) == after
  {
    ShownByCandidate(z, naive);
    Window(z, naive);
  }

  /** Both candidates fall on whole minutes. */
  lemma CandidatesAligned(z: Zone, naive: int, i: int)
    requires WholeMinuteOffsets(z)
    requires WholeMinute(naive)
    ensures WholeMinute(naive - z(i))
  {
    assert Aligned(z, i);
  }

  /** In a gap, the first instant with the new offset is the first to reach the reading. */
  lemma TransitionIsFirst(z: Zone, naive: int, high: int)
    requires WellFormed(z)
    requires !Shown(z, naive)
    requires naive - z(naive + MS_DAY) < high <= naive - z(naive - MS_DAY)
    requires WholeMinute(high)
    requires z(high - MS_MINUTE) == z(naive - MS_DAY) && z(high) != z(naive - MS_DAY)
    ensures IsFirstReach(z, naive, high)
  {
    GapOpens(z, naive);
    Window(z, naive);
    var before := z(naive - MS_DAY);
    forall i | naive - MS_DAY <= i < high
      ensures Local(z, i) < naive
    {
      if i >= high - MS_MINUTE {
        assert SameMinute(i, high - MS_MINUTE);
        assert z(i) == before;
      } else {
        assert z(i) == z(naive + MS_DAY) ==> z(high - MS_MINUTE) == z(naive + MS_DAY);
      }
    }
    FirstReachInWindow(z, naive, high);
  }

  // ----- resolveNaive -----

  /** `Math.round` of `d / 2` in whole minutes: halves round up. */
  function HalfInMinutes(d: int): int {
    (d + MS_MINUTE) / (2 * MS_MINUTE) * MS_MINUTE
  }

  lemma HalfStaysInside(low: int, high: int)
    requires WholeMinute(low) && WholeMinute(high)
    requires high - low > MS_MINUTE
    ensures low < low + HalfInMinutes(high - low) < high
    ensures WholeMinute(low + HalfInMinutes(high - low))
  {
    var l, h := low / MS_MINUTE, high / MS_MINUTE;
    assert high - low == (h - l) * MS_MINUTE;
    assert (high - low + MS_MINUTE) / (2 * MS_MINUTE) == (h - l + 1) / 2;
    assert low + HalfInMinutes(high - low) == (l + (h - l + 1) / 2) * MS_MINUTE;
  }

  /** Two whole minutes no more than a minute apart, in order, are consecutive. */
  lemma Consecutive(low: int, high: int)
    requires WholeMinute(low) && WholeMinute(high)
    requires low < high <= low + MS_MINUTE
    ensures high == low + MS_MINUTE
  {
    assert (high - low) % MS_MINUTE == 0;
  }

  /** From this instant on every reading is of the year 100 or later, so that offsets are read correctly. */
  ghost predicate OffsetsReadable(z: Zone, from: int) {
    forall i :: i >= from ==> Reading(z, i) >= YEAR_100
  }

  /** One change of offset, from the one at `from`, on the way to `to`. */
  ghost predicate Bracket(z: Zone, from: int, to: int) {
    from < to && WholeMinute(from) && WholeMinute(to) && z(from) != z(to)
  }

  /**
   * The binary search that closes `resolveNaive`: `low` keeps the old offset and `high` does not,
   * until they are a minute apart and `high` is the transition.
   */
  method FindTransition(z: Zone, from: int, to: int) returns (high: int)
    ensures OffsetsReadable(z, from) && Bracket(z, from, to) ==>
              && from < high <= to && WholeMinute(high)
              && z(high - MS_MINUTE) == z(from) && z(high) != z(from)
  {
    hide WholeMinute, HalfInMinutes, OffsetAt;
    ghost var sound := OffsetsReadable(z, from) && Bracket(z, from, to);
    var low := from;
    high := to;
    var lowOffset := OffsetAt(z, low);
    while high - low > MS_MINUTE
      invariant sound ==> from <= low < high <= to && WholeMinute(low) && WholeMinute(high)
      invariant sound ==> z(low) == lowOffset == z(from) && z(high) != lowOffset
      decreases high - low
    {
      if sound {
        HalfStaysInside(low, high);
      }
      var mid := low + HalfInMinutes(high - low);
      if mid <= low || mid >= high {
        break;
      }
      assert sound ==> OffsetAt(z, mid) == z(mid);
      if OffsetAt(z, mid) == lowOffset {
        low := mid;
      } else {
        high := mid;
      }
    }
    if sound {
      Consecutive(low, high);
    }
  }

  /** The probes a day either side, and what lies between them, are in the year 100 or later. */
  predicate Modern(naive: int) {
    naive >= YEAR_100 + 2 * MS_DAY
  }

  /** The offset does not change between the probes. */
  ghost predicate Steady(z: Zone, naive: int) {
    z(naive - MS_DAY) == z(naive + MS_DAY)
  }

  /**
   * The resolver is right about a reading of the year 100 or later, in its first two days if the
   * offset does not change about then.
   */
  ghost predicate Exact(z: Zone, naive: int) {
    Modern(naive) || (naive >= YEAR_100 && Steady(z, naive))
  }

  lemma MinuteReading(z: Zone, t: int)
    requires WholeMinuteOffsets(z) && WholeMinute(t)
    ensures Reading(z, t) == Local(z, t) && WholeMinute(Local(z, t))
  {
    assert Aligned(z, t);
    assert t == 1000 * (60 * (t / MS_MINUTE));
  }

  /**
   * At the turn to the year 100, with a steady offset: the earlier probe may read the year 99 and
   * be off by nineteen centuries, but then its candidate does not confirm it.
   */
  lemma EarlyProbe(z: Zone, naive: int)
    requires WellFormed(z) && WholeMinute(naive)
    requires Exact(z, naive) && !Modern(naive)
    ensures var (b, before, after) := (z(naive + MS_DAY), OffsetAt(z, naive - MS_DAY), OffsetAt(z, naive + MS_DAY));
            && after == b && z(naive - b) == b && OffsetAt(z, naive - b) == b
            && (before == b || OffsetAt(z, naive - before) != before)
  {
    hide OffsetAt, AsUTC, DayFromYear, WholeMinute;
    var b := z(naive + MS_DAY);
    Window(z, naive);
    CandidatesAligned(z, naive, naive + MS_DAY);
    MinuteReading(z, naive - b);
    DayEitherSide(naive);
    MinuteReading(z, naive + MS_DAY);
    MinuteReading(z, naive - MS_DAY);
    if Reading(z, naive - MS_DAY) < YEAR_100 {
      OffByCenturies(z, naive);
    }
  }

  lemma SteadyIsFirst(z: Zone, naive: int)
    requires WellFormed(z) && Steady(z, naive)
    ensures Resolve(z, naive) == naive - z(naive + MS_DAY) && Shown(z, naive)
  {
    var b := z(naive + MS_DAY);
    Window(z, naive);
    assert Valid(z, naive, b);
    ShownByCandidate(z, naive);
    ValidCandidateIsFirst(z, naive, naive - b);
    ResolveUnique(z, naive, naive - b);
  }

  lemma DayEitherSide(naive: int)
    requires WholeMinute(naive)
    ensures WholeMinute(naive - MS_DAY) && WholeMinute(naive + MS_DAY)
  {
  }

  lemma OffByCenturies(z: Zone, naive: int)
    requires Bounded(z) && WholeMinuteOffsets(z) && WholeMinute(naive)
    requires YEAR_100 <= naive && !Modern(naive)
    requires Reading(z, naive - MS_DAY) == Local(z, naive - MS_DAY) < YEAR_100
    ensures var before := OffsetAt(z, naive - MS_DAY);
            OffsetAt(z, naive - before) != before
  {
    hide AsUTC, DayFromYear, WholeMinute, WholeMinuteOffsets;
    var before := OffsetAt(z, naive - MS_DAY);
    YearsBetween();
    LateNinetyNine(Local(z, naive - MS_DAY));
    LongAgoReads(Reading(z, naive - before));
  }

  lemma YearsBetween()
    ensures DayFromYear(100) - 365 * 1900 + 10 < DayFromYear(-1000)
    ensures DayFromYear(99) + 2 < DayFromYear(100) && DayFromYear(100) + 2 < DayFromYear(1000)
  {
  }

  lemma LateNinetyNine(t: int)
    requires YEAR_100 - 2 * MS_DAY <= t < YEAR_100
    ensures AsUTC(t) >= t + (365 * 1900 - 1) * MS_DAY
  {
    hide DayFromYear, ShownDay;
    YearsBetween();
    YearNinetyNine(t / MS_DAY);
  }

  lemma LongAgoReads(t: int)
    requires t < DayFromYear(-1000) * MS_DAY
    ensures AsUTC(t) >= DayFromYear(1000) * MS_DAY
  {
    hide DayFromYear, ShownDay;
    LongAgo(t / MS_DAY);
  }

  lemma ModernIsReadable(z: Zone, naive: int)
    requires Bounded(z) && Modern(naive)
    ensures OffsetsReadable(z, naive - MS_DAY)
  {
  }

  /**
   * A wall-clock reading as an instant: the earliest one showing it, or the transition that
   * swallowed it when the clock jumped over it.
   */
  method ResolveNaive(z: Zone, naive: int) returns (instant: int, gap: bool)
    requires WellFormed(z)
    requires WholeMinute(naive)
    ensures Exact(z, naive) ==> instant == Resolve(z, naive) && (gap <==> !Shown(z, naive))
  {
    hide OffsetAt, Steady, WholeMinuteOffsets, WholeMinuteTransitions, Isolated, Resolve, Shown;
    ghost var modern := Modern(naive);
    var beforeOffset := OffsetAt(z, naive - MS_DAY);
    var afterOffset := OffsetAt(z, naive + MS_DAY);
    var candidateA := naive - beforeOffset;
    var candidateB := naive - afterOffset;
    if modern {
      ModernIsReadable(z, naive);
      ShownByCandidate(z, naive);
      assert beforeOffset == z(naive - MS_DAY) && afterOffset == z(naive + MS_DAY);
      assert OffsetAt(z, candidateA) == z(candidateA) && OffsetAt(z, candidateB) == z(candidateB);
    } else if Exact(z, naive) {
      EarlyProbe(z, naive);
      SteadyIsFirst(z, naive);
    }

    var valid: seq<int> := [];
    if OffsetAt(z, candidateA) == beforeOffset {
      valid := valid + [candidateA];
    }
    if candidateB != candidateA && OffsetAt(z, candidateB) == afterOffset {
      valid := valid + [candidateB];
    }
    if |valid| > 0 {
      instant := if |valid| == 2 && valid[1] < valid[0] then valid[1] else valid[0];
      gap := false;
      if modern {
        ValidCandidateIsFirst(z, naive, instant);
        ResolveUnique(z, naive, instant);
      }
      return;
    }

    if modern {
      GapOpens(z, naive);
      CandidatesAligned(z, naive, naive - MS_DAY);
      CandidatesAligned(z, naive, naive + MS_DAY);
    }
    var low := if candidateA < candidateB then candidateA else candidateB;
    var high := if candidateA < candidateB then candidateB else candidateA;
    assert modern ==> Bracket(z, low, high) && OffsetsReadable(z, low);
    instant := FindTransition(z, low, high);
    gap := true;
    if modern {
      TransitionIsFirst(z, naive, instant);
      ResolveUnique(z, naive, instant);
    }
  }

  // ----- What a resolution means -----

  /**
   * A reading some instant shows resolves to an instant showing it, and to the first: the second
   * pass through a repeated hour is never the answer.
   */
  lemma ResolveShown(z: Zone, naive: int)
    requires WellFormed(z)
    requires Shown(z, naive)
    ensures Local(z, Resolve(z, naive)) == naive
    ensures forall i :: Local(z, i) == naive ==> Resolve(z, naive) <= i
  {
    ShownByCandidate(z, naive);
    var (before, after) := (z(naive - MS_DAY), z(naive + MS_DAY));
    var (a, b) := (naive - before, naive - after);
    var r := if Valid(z, naive, before) && (a <= b || !Valid(z, naive, after)) then a else b;
    ValidCandidateIsFirst(z, naive, r);
    ResolveUnique(z, naive, r);
  }

  /**
   * A reading no instant shows resolves to the moment the offset grows, at which the clock has
   * already passed the reading.
   */
  lemma ResolveGap(z: Zone, naive: int)
    requires WellFormed(z)
    requires !Shown(z, naive)
    ensures z(Resolve(z, naive) - 1) < z(Resolve(z, naive))
    ensures Local(z, Resolve(z, naive) - 1) < naive < Local(z, Resolve(z, naive))
  {
    var r := Resolve(z, naive);
    assert Local(z, r - 1) < naive;
    assert Local(z, r) != naive;
  }

  /** All readings swallowed by one jump resolve to the same instant. */
  lemma GapCoalesces(z: Zone, n1: int, n2: int)
    requires WellFormed(z)
    requires n1 <= n2 < Local(z, Resolve(z, n1)) && !Shown(z, n1)
    ensures Resolve(z, n2) == Resolve(z, n1)
  {
    var r := Resolve(z, n1);
    ResolveMonotone(z, n1, n2);
    assert forall i :: i < r ==> Local(z, i) < n1 <= n2;
    ResolveUnique(z, n2, r);
  }
}
