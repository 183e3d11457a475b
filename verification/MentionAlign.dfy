/**
 * The exact alignment: a dynamic program over query characters and candidate positions, with the
 * gap cost carried along each row in one running maximum. `Best` and `Gap` are its recurrences;
 * the lemmas relate them to the score of every alignment, and the methods fill the tables.
 */
module MentionAlign {
  import opened MentionMatch
  import opened Wrappers

  /** A folded query, the folded candidate and the candidate as written. */
  datatype Problem = Problem(q: string, t: string, text: string) {
    ghost predicate Fits() {
      0 < |q| && |t| == |text| && |t| <= MAX_ALIGNMENT_CELLS
    }
  }

  /** A score and where the previous query character sat (-1: nowhere). */
  datatype Cell = Cell(score: int, source: int)

  const NOWHERE := Cell(NEG, -1)

  // ----- The recurrences -----

  /** The running maximum of row `i` once column `j` has been taken in. */
  function Gap(p: Problem, i: nat, j: int): Cell
    requires |p.t| == |p.text| && i < |p.q| && j < |p.t|
    decreases i, 0, j + 1
  {
    if j < i then NOWHERE
    else
      var previous := Gap(p, i, j - 1);
      if i > 0 && j >= 2 then
        var entering := Best(p, i - 1, j - 2).score - GAP_START;
        var extended := previous.score - GAP_EXTENSION;
        if entering >= extended then Cell(entering, j - 2) else Cell(extended, previous.source)
      else previous
  }

  /** The best way to reach column `j` from the row before: adjacent or across a gap. */
  function Reach(p: Problem, i: nat, j: nat): Cell
    requires |p.t| == |p.text| && 0 < i < |p.q| && i <= j < |p.t|
    decreases i, 1, j + 1
  {
    var adjacent := Best(p, i - 1, j - 1).score;
    var gap := Gap(p, i, j);
    var near := if adjacent > NEG / 2 then Cell(adjacent + BONUS_CONSECUTIVE, j - 1) else NOWHERE;
    if gap.score > NEG / 2 && gap.score > near.score then gap else near
  }

  /** The table entry: the best score with query character `i` matched at column `j`. */
  function Best(p: Problem, i: nat, j: nat): Cell
    requires |p.t| == |p.text| && i < |p.q| && j < |p.t|
    decreases i, 2, j + 1
  {
    if j < i || p.t[j] != p.q[i] then NOWHERE
    else if i == 0 then Cell(Own(p.text, j), -1)
    else
      var reach := Reach(p, i, j);
      if reach.source < 0 then NOWHERE else Cell(reach.score + Own(p.text, j), reach.source)
  }

  // ----- What the recurrences mean -----

  /** `e` spells the query up to character `i` and ends at column `j`. */
  ghost predicate EndsAt(p: Problem, e: seq<int>, i: nat, j: int)
    requires i < |p.q|
  {
    IsEmbedding(p.q[..i + 1], p.t, e) && e[i] == j
  }

  /** A real entry: some alignment ends here. */
  predicate Real(c: Cell) { c.score > NEG / 2 }

  /** What a table entry must be: a best alignment ending there, or nothing at all. */
  ghost predicate Exact(p: Problem, i: nat, j: nat)
    requires p.Fits() && i < |p.q| && j < |p.t|
  {
    && (Best(p, i, j) == NOWHERE || Best(p, i, j).score >= 16 - j)
    && (Best(p, i, j) != NOWHERE ==>
          exists e :: EndsAt(p, e, i, j) && Inside(p.text, e) && Score(p.text, e) == Best(p, i, j).score)
    && (forall e :: EndsAt(p, e, i, j) ==> Inside(p.text, e) && Score(p.text, e) <= Best(p, i, j).score)
  }

  /** Charging the gap from column `k` to column `j`. */
  function Charged(p: Problem, i: nat, k: nat, j: nat): int
    requires |p.t| == |p.text| && 0 < i < |p.q| && k + 2 <= j < |p.t|
  {
    Best(p, i - 1, k).score + Link(k, j)
  }

  /** What the running maximum must be: the best charged predecessor, or nothing at all. */
  ghost predicate GapExact(p: Problem, i: nat, j: nat)
    requires p.Fits() && 0 < i < |p.q| && j < |p.t|
  {
    var gap := Gap(p, i, j);
    && (Real(gap) ==> 0 <= gap.source <= j - 2 && Best(p, i - 1, gap.source) != NOWHERE
                      && gap.score == Charged(p, i, gap.source, j))
    && (Real(gap) ==> forall k: nat :: gap.source < k <= j - 2 && Best(p, i - 1, k) != NOWHERE ==>
                        gap.score > Charged(p, i, k, j))
    && (!Real(gap) ==> gap.score <= NEG)
    && (forall k :: 0 <= k <= j - 2 && Best(p, i - 1, k) != NOWHERE ==> gap.score >= Charged(p, i, k, j))
  }

  ghost predicate RowExact(p: Problem, i: nat)
    requires p.Fits() && i < |p.q|
  {
    forall k: nat :: k < |p.t| ==> Exact(p, i, k)
  }

  lemma EntryBound(p: Problem, i: nat, k: nat)
    requires p.Fits() && i < |p.q| && k < |p.t|
    requires RowExact(p, i)
    ensures Best(p, i, k) == NOWHERE || Best(p, i, k).score >= 16 - k
  {
    assert Exact(p, i, k);
  }

  /** One column further costs one more; the column two back may enter. */
  lemma GapStep(p: Problem, i: nat, j: nat)
    requires p.Fits() && 0 < i < |p.q| && 2 <= j < |p.t| && i <= j
    requires RowExact(p, i - 1) && GapExact(p, i, j - 1)
    ensures GapExact(p, i, j)
  {
    hide Best, Exact, RowExact;
    var previous, gap := Gap(p, i, j - 1), Gap(p, i, j);
    EntryBound(p, i - 1, j - 2);
    if Real(previous) {
      EntryBound(p, i - 1, previous.source);
    }
    forall k | 0 <= k <= j - 2 && Best(p, i - 1, k) != NOWHERE
      ensures gap.score >= Charged(p, i, k, j)
    {
      EntryBound(p, i - 1, k);
      assert k < j - 2 ==> previous.score >= Charged(p, i, k, j - 1);
    }
    if Real(gap) {
      forall k: nat | gap.source < k <= j - 2 && Best(p, i - 1, k) != NOWHERE
        ensures gap.score > Charged(p, i, k, j)
      {
        assert k < j - 2 ==> previous.score > Charged(p, i, k, j - 1);
      }
    }
  }

  /** The running maximum is right once the row before is. */
  lemma {:induction false} GapIsExact(p: Problem, i: nat, j: nat)
    requires p.Fits() && 0 < i < |p.q| && j < |p.t|
    requires RowExact(p, i - 1)
    ensures GapExact(p, i, j)
    decreases j
  {
    if j < i || j < 2 {
      var row := i - 1;
      assert forall k :: 0 <= k <= j - 2 ==> Best(p, row, k) == NOWHERE;
    } else {
      GapIsExact(p, i, j - 1);
      GapStep(p, i, j);
    }
  }

  /** An alignment ending in row `i` is one ending in the row before, a step and a character. */
  lemma LastStep(p: Problem, e: seq<int>, i: nat, j: nat)
    requires p.Fits() && 0 < i < |p.q| && j < |p.t|
    requires EndsAt(p, e, i, j)
    ensures EndsAt(p, e[..i], i - 1, e[i - 1]) && i - 1 <= e[i - 1] < j
    ensures Inside(p.text, e)
    ensures Score(p.text, e) == Score(p.text, e[..i]) + Link(e[i - 1], j) + Own(p.text, j)
  {
    var q := p.q[..i + 1];
    Shorten(q, p.t, e);
    assert q[..i] == p.q[..i];
    Spread(q, p.t, e, i - 1);
  }

  lemma AddStep(p: Problem, e: seq<int>, i: nat, k: nat, j: nat)
    requires p.Fits() && 0 < i < |p.q| && k < j < |p.t|
    requires EndsAt(p, e, i - 1, k) && Inside(p.text, e) && p.t[j] == p.q[i]
    ensures EndsAt(p, e + [j], i, j) && Inside(p.text, e + [j])
    ensures Score(p.text, e + [j]) == Score(p.text, e) + Link(k, j) + Own(p.text, j)
  {
    AppendPosition(p.q, p.t, e, i, j);
    assert (e + [j])[..|e|] == e;
  }

  /** No alignment of the row before, ending before `j`, beats `Reach`. */
  lemma ReachIsBest(p: Problem, i: nat, j: nat, k: nat)
    requires p.Fits() && 0 < i < |p.q| && i <= j < |p.t|
    requires RowExact(p, i - 1) && k < j && Best(p, i - 1, k) != NOWHERE
    ensures Reach(p, i, j).source >= 0
    ensures Best(p, i - 1, k).score + Link(k, j) <= Reach(p, i, j).score
  {
    hide Best, Exact, RowExact, Gap;
    GapIsExact(p, i, j);
    EntryBound(p, i - 1, k);
    assert k < j - 1 ==> Gap(p, i, j).score >= Charged(p, i, k, j);
  }

  /** `Reach` is attained by the entry it names. */
  lemma ReachIsAttained(p: Problem, i: nat, j: nat)
    requires p.Fits() && 0 < i < |p.q| && i <= j < |p.t|
    requires RowExact(p, i - 1)
    requires Reach(p, i, j).source >= 0
    ensures var k := Reach(p, i, j).source;
            k < j && Best(p, i - 1, k) != NOWHERE
            && Reach(p, i, j).score == Best(p, i - 1, k).score + Link(k, j)
  {
    hide Best, Exact, RowExact, Gap;
    GapIsExact(p, i, j);
  }

  /** Of the entries that attain it, `Reach` names the last. */
  lemma ReachIsLatest(p: Problem, i: nat, j: nat, k: nat)
    requires p.Fits() && 0 < i < |p.q| && i <= j < |p.t|
    requires RowExact(p, i - 1)
    requires Reach(p, i, j).source < k < j && Best(p, i - 1, k) != NOWHERE && Reach(p, i, j).source >= 0
    ensures Best(p, i - 1, k).score + Link(k, j) < Reach(p, i, j).score
  {
    hide Best, Exact, RowExact, Gap;
    GapIsExact(p, i, j);
    EntryBound(p, i - 1, k);
    assert k < j - 1 ==> Gap(p, i, j).score > Charged(p, i, k, j);
  }

  lemma FirstRow(p: Problem, j: nat)
    requires p.Fits() && j < |p.t|
    ensures Exact(p, 0, j)
  {
    if p.t[j] == p.q[0] {
      assert p.q[..1] == [p.q[0]];
      assert EndsAt(p, [j], 0, j);
    }
    assert forall e :: EndsAt(p, e, 0, j) ==> e == [j];
  }

  lemma NextRow(p: Problem, i: nat, j: nat)
    requires p.Fits() && 0 < i < |p.q| && j < |p.t|
    requires RowExact(p, i - 1)
    ensures Exact(p, i, j)
  {
    hide Score, EndsAt, Reach;
    forall e | EndsAt(p, e, i, j)
      ensures Best(p, i, j) != NOWHERE && Inside(p.text, e) && Score(p.text, e) <= Best(p, i, j).score
    {
      EndsMatches(p, e, i, j);
      LastStep(p, e, i, j);
      var k := e[i - 1];
      assert Exact(p, i - 1, k);
      BelowNowhere(p, e[..i], i - 1, k);
      ReachIsBest(p, i, j, k);
    }
    if Best(p, i, j) != NOWHERE {
      ReachIsAttained(p, i, j);
      var k := Reach(p, i, j).source;
      assert Exact(p, i - 1, k);
      var e :| EndsAt(p, e, i - 1, k) && Inside(p.text, e) && Score(p.text, e) == Best(p, i - 1, k).score;
      AddStep(p, e, i, k, j);
      EndBound(p, e + [j], i, j);
    }
  }

  lemma EndsMatches(p: Problem, e: seq<int>, i: nat, j: nat)
    requires p.Fits() && i < |p.q| && j < |p.t|
    requires EndsAt(p, e, i, j)
    ensures |e| == i + 1 && p.t[j] == p.q[i] && i <= j && Inside(p.text, e)
  {
    Spread(p.q[..i + 1], p.t, e, i);
  }

  lemma EndBound(p: Problem, e: seq<int>, i: nat, j: nat)
    requires p.Fits() && i < |p.q| && j < |p.t|
    requires EndsAt(p, e, i, j)
    ensures Inside(p.text, e) && Score(p.text, e) >= 16 - j
  {
    ScoreLowerBound(p.q[..i + 1], p.t, p.text, e);
  }

  /** Where an alignment ends, the entry is not empty. */
  lemma BelowNowhere(p: Problem, e: seq<int>, i: nat, j: nat)
    requires p.Fits() && i < |p.q| && j < |p.t|
    requires Exact(p, i, j) && EndsAt(p, e, i, j)
    ensures Best(p, i, j) != NOWHERE
  {
    hide Best, Score;
    EndBound(p, e, i, j);
  }

  /** Every entry of every row is exact. */
  lemma {:induction false} TableIsExact(p: Problem, i: nat)
    requires p.Fits() && i < |p.q|
    ensures RowExact(p, i)
  {
    hide Exact;
    if i > 0 {
      TableIsExact(p, i - 1);
    }
    forall j: nat | j < |p.t|
      ensures Exact(p, i, j)
    {
      if i == 0 {
        FirstRow(p, j);
      } else {
        NextRow(p, i, j);
      }
    }
  }

  // ----- The tables -----

  /** Row-major: the entry at flat position `x`. */
  function Entry(p: Problem, x: nat): Cell
    requires p.Fits() && |p.t| > 0 && x < |p.q| * |p.t|
  {
    RowOf(|p.q|, |p.t|, x);
    Best(p, x / |p.t|, x % |p.t|)
  }

  lemma RowOf(m: nat, n: nat, x: nat)
    requires n > 0 && x < m * n
    ensures x / n < m
  {
    var d := x / n;
    assert x == d * n + x % n;
    assert d >= m ==> d * n >= m * n;
  }

  lemma FlatPosition(m: nat, n: nat, i: nat, j: nat)
    requires i < m && j < n
    ensures 0 <= i * n + j < m * n
    ensures (i * n + j) / n == i && (i * n + j) % n == j
  {
    assert (i + 1) * n <= m * n;
    DivisionUnique(i * n + j, n, i, j);
  }

  lemma DivisionUnique(x: nat, n: nat, i: nat, j: nat)
    requires j < n && x == i * n + j
    ensures x / n == i && x % n == j
  {
    var (d, r) := (x / n, x % n);
    assert x == d * n + r;
    assert d < i ==> (d + 1) * n <= i * n;
    assert i < d ==> (i + 1) * n <= d * n;
  }

  /** The tables are final before position `upto` and untouched from there on. */
  ghost predicate Filled(p: Problem, best: seq<int>, from: seq<int>, upto: nat)
    requires p.Fits() && |p.t| > 0
  {
    && |best| == |from| == |p.q| * |p.t|
    && (forall x: nat :: x < upto && x < |best| ==> best[x] == Entry(p, x).score && from[x] == Entry(p, x).source)
    && (forall x: nat :: upto <= x < |best| ==> best[x] == NEG && from[x] == -1)
  }

  lemma ReadEntry(p: Problem, best: seq<int>, from: seq<int>, upto: nat, i: nat, j: nat)
    requires p.Fits() && |p.t| > 0 && i < |p.q| && j < |p.t|
    requires Filled(p, best, from, upto) && i * |p.t| + j < upto
    ensures 0 <= i * |p.t| + j < |best| == |from|
    ensures best[i * |p.t| + j] == Best(p, i, j).score && from[i * |p.t| + j] == Best(p, i, j).source
  {
    hide Best;
    FlatPosition(|p.q|, |p.t|, i, j);
  }

  lemma FillNext(p: Problem, best: seq<int>, from: seq<int>, i: nat, j: nat, c: Cell)
    requires p.Fits() && |p.t| > 0 && i < |p.q| && j < |p.t|
    requires Filled(p, best, from, i * |p.t| + j)
    requires c == Best(p, i, j)
    ensures 0 <= i * |p.t| + j < |best| == |from|
    ensures var x := i * |p.t| + j; Filled(p, best[x := c.score], from[x := c.source], x + 1)
  {
    hide Best;
    FlatPosition(|p.q|, |p.t|, i, j);
  }

  /** An entry that stays empty is already in place. */
  lemma FillEmpty(p: Problem, best: seq<int>, from: seq<int>, i: nat, j: nat)
    requires p.Fits() && |p.t| > 0 && i < |p.q| && j < |p.t|
    requires Filled(p, best, from, i * |p.t| + j)
    requires Best(p, i, j) == NOWHERE
    ensures Filled(p, best, from, i * |p.t| + j + 1)
  {
    hide Best;
    FlatPosition(|p.q|, |p.t|, i, j);
  }

  /** The columns left of the diagonal stay empty. */
  lemma {:induction false} FillLower(p: Problem, best: seq<int>, from: seq<int>, i: nat, k: nat)
    requires p.Fits() && i < |p.q| <= |p.t| && k <= i
    requires Filled(p, best, from, i * |p.t|)
    ensures Filled(p, best, from, i * |p.t| + k)
  {
    if k > 0 {
      FillLower(p, best, from, i, k - 1);
      FillEmpty(p, best, from, i, k - 1);
    }
  }

  /** Takes column `j` into the running maximum of row `i`. */
  method AdvanceGap(p: Problem, best: array<int>, from: array<int>, i: nat, j: nat, gap: Cell) returns (r: Cell)
    requires p.Fits() && i < |p.q| <= |p.t| && i <= j < |p.t|
    requires Filled(p, best[..], from[..], i * |p.t| + j)
    requires gap == Gap(p, i, j - 1)
    ensures r == Gap(p, i, j)
  {
    hide Best, Gap, Filled;
    GapUnfold(p, i, j);
    var n := |p.t|;
    var prevRow := i * n - n;
    r := gap;
    if i > 0 && j >= 2 {
      assert prevRow == (i - 1) * n;
      ReadEntry(p, best[..], from[..], i * n + j, i - 1, j - 2);
      assert |best[..]| == best.Length;
      var entering := best[prevRow + j - 2] - GAP_START;
      var extended := gap.score - GAP_EXTENSION;
      if entering >= extended {
        r := Cell(entering, j - 2);
      } else {
        r := Cell(extended, gap.source);
      }
    }
  }

  /** Scores one cell of the table and writes it if an alignment ends there. */
  method FillCell(p: Problem, bonus: array<int>, best: array<int>, from: array<int>, i: nat, j: nat, gap: Cell)
    requires p.Fits() && i < |p.q| <= |p.t| && i <= j < |p.t|
    requires bonus.Length == |p.t| && bonus[j] == PositionBonus(p.text, j)
    requires best != from && bonus != best && bonus != from
    requires Filled(p, best[..], from[..], i * |p.t| + j)
    requires gap == Gap(p, i, j)
    modifies best, from
    ensures Filled(p, best[..], from[..], i * |p.t| + j + 1)
  {
    hide Best, Gap, Reach, Filled, PositionBonus;
    var n := |p.t|;
    var x := i * n + j;
    ghost var (wasBest, wasFrom) := (best[..], from[..]);
    assert |wasBest| == best.Length && |wasFrom| == from.Length;
    BestUnfold(p, i, j);
    if p.t[j] != p.q[i] {
      FillEmpty(p, wasBest, wasFrom, i, j);
      return;
    }
    var own := SCORE_MATCH + bonus[j];
    if i == 0 {
      FillNext(p, wasBest, wasFrom, i, j, Cell(own, -1));
      UntouchedSource(p, wasBest, wasFrom, i, j);
      best[x] := own;
      assert best[..] == wasBest[x := own] && from[..] == wasFrom[x := -1];
      return;
    }
    ReachUnfold(p, i, j);
    PreviousRow(p, wasBest, wasFrom, i, j);
    var score, source := NEG, -1;
    var adjacent := best[x - n - 1];
    if adjacent > NEG / 2 {
      score := adjacent + BONUS_CONSECUTIVE;
      source := j - 1;
    }
    if gap.score > NEG / 2 && gap.score > score {
      score := gap.score;
      source := gap.source;
    }
    assert Cell(score, source) == Reach(p, i, j);
    if source < 0 {
      FillEmpty(p, wasBest, wasFrom, i, j);
      return;
    }
    FillNext(p, wasBest, wasFrom, i, j, Cell(score + own, source));
    best[x] := score + own;
    from[x] := source;
    assert best[..] == wasBest[x := score + own] && from[..] == wasFrom[x := source];
  }

  lemma UntouchedSource(p: Problem, best: seq<int>, from: seq<int>, i: nat, j: nat)
    requires p.Fits() && i < |p.q| && j < |p.t|
    requires Filled(p, best, from, i * |p.t| + j)
    ensures 0 <= i * |p.t| + j < |from| && from[i * |p.t| + j] == -1
  {
    FlatPosition(|p.q|, |p.t|, i, j);
  }

  /** Where the cell diagonally before this one lies. */
  lemma PreviousRow(p: Problem, best: seq<int>, from: seq<int>, i: nat, j: nat)
    requires p.Fits() && 0 < i < |p.q| && i <= j < |p.t|
    requires Filled(p, best, from, i * |p.t| + j)
    ensures var x := i * |p.t| + j - |p.t| - 1;
            0 <= x < |best| && best[x] == Best(p, i - 1, j - 1).score
  {
    hide Best, Filled;
    ReadEntry(p, best, from, i * |p.t| + j, i - 1, j - 1);
    assert (i - 1) * |p.t| == i * |p.t| - |p.t|;
  }

  /** Fills the two tables: for every cell, the recurrence's score and where it came from. */
  method FillTables(p: Problem) returns (best: array<int>, from: array<int>)
    requires p.Fits() && |p.q| <= |p.t|
    ensures Filled(p, best[..], from[..], |p.q| * |p.t|)
  {
    hide Best, Gap, Filled, PositionBonus;
    var m, n := |p.q|, |p.t|;
    var bonus := new int[n](j requires 0 <= j < n => PositionBonus(p.text, j));
    best := new int[m * n](_ => NEG);
    from := new int[m * n](_ => -1);
    EmptyTables(p, best[..], from[..]);
    for i := 0 to m
      invariant Filled(p, best[..], from[..], i * n)
      invariant forall k :: 0 <= k < n ==> bonus[k] == PositionBonus(p.text, k)
    {
      var gap := NOWHERE;
      FillLower(p, best[..], from[..], i, i);
      EmptyGap(p, i);
      for j := i to n
        invariant Filled(p, best[..], from[..], i * n + j)
        invariant gap == Gap(p, i, j - 1)
        invariant forall k :: 0 <= k < n ==> bonus[k] == PositionBonus(p.text, k)
      {
        gap := AdvanceGap(p, best, from, i, j, gap);
        FillCell(p, bonus, best, from, i, j, gap);
      }
      assert i * n + n == (i + 1) * n;
    }
  }

  lemma EmptyTables(p: Problem, best: seq<int>, from: seq<int>)
    requires p.Fits() && |p.t| > 0
    requires |best| == |from| == |p.q| * |p.t|
    requires forall x :: 0 <= x < |best| ==> best[x] == NEG && from[x] == -1
    ensures Filled(p, best, from, 0)
  {
  }

  lemma EmptyGap(p: Problem, i: nat)
    requires p.Fits() && i < |p.q| <= |p.t|
    ensures Gap(p, i, i - 1) == NOWHERE
  {
  }

  lemma GapUnfold(p: Problem, i: nat, j: nat)
    requires p.Fits() && i < |p.q| && i <= j < |p.t|
    ensures Gap(p, i, j) ==
            if i > 0 && j >= 2 then
              var entering := Best(p, i - 1, j - 2).score - GAP_START;
              var extended := Gap(p, i, j - 1).score - GAP_EXTENSION;
              if entering >= extended then Cell(entering, j - 2) else Cell(extended, Gap(p, i, j - 1).source)
            else Gap(p, i, j - 1)
  {
  }

  lemma ReachUnfold(p: Problem, i: nat, j: nat)
    requires p.Fits() && 0 < i < |p.q| && i <= j < |p.t|
    ensures var adjacent := Best(p, i - 1, j - 1).score;
            var gap := Gap(p, i, j);
            var near := if adjacent > NEG / 2 then Cell(adjacent + BONUS_CONSECUTIVE, j - 1) else NOWHERE;
            Reach(p, i, j) == if gap.score > NEG / 2 && gap.score > near.score then gap else near
  {
  }

  lemma BestUnfold(p: Problem, i: nat, j: nat)
    requires p.Fits() && i < |p.q| && i <= j < |p.t|
    ensures Best(p, i, j) ==
            if p.t[j] != p.q[i] then NOWHERE
            else if i == 0 then Cell(Own(p.text, j), -1)
            else if Reach(p, i, j).source < 0 then NOWHERE
            else Cell(Reach(p, i, j).score + Own(p.text, j), Reach(p, i, j).source)
  {
  }

  // ----- Reading the answer off the tables -----

  /** `e` is a whole alignment with this score. */
  ghost predicate Completes(p: Problem, e: seq<int>, score: int)
    requires |p.t| == |p.text|
  {
    IsEmbedding(p.q, p.t, e) && Inside(p.text, e) && Score(p.text, e) == score
  }

  /** Any best alignment up to column `j` of row `i` is completed by the positions after it. */
  ghost predicate CompletedBy(p: Problem, i: nat, j: nat, rest: seq<int>, score: int)
    requires p.Fits() && i < |p.q| && j < |p.t|
  {
    forall e :: EndsAt(p, e, i, j) && Inside(p.text, e) && Score(p.text, e) == Best(p, i, j).score ==>
      Completes(p, e + rest, score)
  }

  lemma CompletedAtEnd(p: Problem, j: nat)
    requires p.Fits() && j < |p.t|
    ensures CompletedBy(p, |p.q| - 1, j, [], Best(p, |p.q| - 1, j).score)
  {
    var i := |p.q| - 1;
    assert p.q[..i + 1] == p.q;
    forall e | EndsAt(p, e, i, j) && Inside(p.text, e) && Score(p.text, e) == Best(p, i, j).score
      ensures Completes(p, e + [], Best(p, i, j).score)
    {
      assert e + [] == e;
    }
  }

  /** A filled entry below the first row names the entry it extends. */
  lemma SourceOf(p: Problem, i: nat, j: nat) returns (k: nat)
    requires p.Fits() && 0 < i < |p.q| && j < |p.t|
    requires Best(p, i, j) != NOWHERE
    ensures k == Best(p, i, j).source && k < j && Best(p, i - 1, k) != NOWHERE
    ensures p.t[j] == p.q[i]
    ensures Best(p, i, j).score == Best(p, i - 1, k).score + Link(k, j) + Own(p.text, j)
  {
    hide Exact, Gap, Reach, RowExact;
    TableIsExact(p, i - 1);
    ReachIsAttained(p, i, j);
    k := Best(p, i, j).source;
  }

  /** Following the link one row up keeps the alignment completable. */
  lemma StepBack(p: Problem, i: nat, j: nat, rest: seq<int>, score: int)
    requires p.Fits() && 0 < i < |p.q| && j < |p.t|
    requires Best(p, i, j) != NOWHERE
    requires CompletedBy(p, i, j, rest, score)
    ensures var k := Best(p, i, j).source;
            && 0 <= k < |p.t| && Best(p, i - 1, k) != NOWHERE
            && CompletedBy(p, i - 1, k, [j] + rest, score)
  {
    hide Best, Score, EndsAt, Own, Link, Completes;
    var k := SourceOf(p, i, j);
    forall e | EndsAt(p, e, i - 1, k) && Inside(p.text, e) && Score(p.text, e) == Best(p, i - 1, k).score
      ensures Completes(p, e + ([j] + rest), score)
    {
      AddStep(p, e, i, k, j);
      assert e + ([j] + rest) == (e + [j]) + rest;
    }
  }

  lemma FirstColumn(p: Problem, j: nat, rest: seq<int>, score: int)
    requires p.Fits() && j < |p.t|
    requires Best(p, 0, j) != NOWHERE
    requires CompletedBy(p, 0, j, rest, score)
    ensures Completes(p, [j] + rest, score)
  {
    assert p.q[..1] == [p.q[0]];
    assert EndsAt(p, [j], 0, j);
  }

  /** Positions of the query characters from `i` on, each before the last named by the next one's link. */
  ghost predicate Linked(p: Problem, i: nat, tail: seq<int>)
    requires |p.t| == |p.text|
  {
    && i + |tail| == |p.q|
    && (forall k :: 0 <= k < |tail| ==> 0 <= tail[k] < |p.t| && Best(p, i + k, tail[k]) != NOWHERE)
    && (forall k :: 0 < k < |tail| ==> tail[k - 1] == Best(p, i + k, tail[k]).source)
  }

  lemma LinkOn(p: Problem, i: nat, j: nat, tail: seq<int>)
    requires p.Fits() && i < |p.q| && j < |p.t| && Best(p, i, j) != NOWHERE
    requires Linked(p, i + 1, tail) && (tail != [] ==> j == Best(p, i + 1, tail[0]).source)
    ensures Linked(p, i, [j] + tail)
  {
    hide Best;
    var whole := [j] + tail;
    forall k | 0 < k < |whole|
      ensures 0 <= whole[k] < |p.t| && Best(p, i + k, whole[k]) != NOWHERE
      ensures whole[k - 1] == Best(p, i + k, whole[k]).source
    {
      assert Best(p, i + 1 + (k - 1), tail[k - 1]) != NOWHERE;
    }
  }

  lemma NothingLinked(p: Problem)
    requires |p.t| == |p.text|
    ensures Linked(p, |p.q|, [])
  {
  }

  /** Walks the source links from the last query character to the first. */
  method TraceBack(p: Problem, ghost best: seq<int>, from: array<int>, end: nat) returns (indices: seq<int>)
    requires p.Fits() && |p.q| <= |p.t| && end < |p.t|
    requires Filled(p, best, from[..], |p.q| * |p.t|)
    requires Best(p, |p.q| - 1, end) != NOWHERE
    ensures Completes(p, indices, Best(p, |p.q| - 1, end).score)
    ensures Linked(p, 0, indices) && indices[|p.q| - 1] == end
  {
    hide Best, Filled, TraceAt, Completes, IsEmbedding, Linked, At;
    var m, n := |p.q|, |p.t|;
    ghost var score := Best(p, m - 1, end).score;
    var a := new int[m];
    var i, j := m - 1, end as int;
    StartTrace(p, end);
    assert a[m..] == [];
    while i >= 0
      invariant -1 <= i < m
      invariant TraceAt(p, i, j, a[i + 1..], score, end)
    {
      TraceStep(p, i, j, a[i + 1..], score, end);
      ghost var tail := a[i + 1..];
      a[i] := j;
      assert a[i..] == [j] + tail;
      ReadSource(p, best, from[..], i, j);
      j := from[At(i, j, n)];
      i := i - 1;
    }
    EndOfTrace(p, i, j, a[i + 1..], score, end);
    indices := a[..];
    assert a[..] == a[0..];
  }

  /** Where the entry of row `i` and column `j` is kept. */
  function At(i: nat, j: nat, n: nat): nat {
    i * n + j
  }

  lemma ReadSource(p: Problem, best: seq<int>, from: seq<int>, i: nat, j: nat)
    requires p.Fits() && i < |p.q| <= |p.t| && j < |p.t|
    requires Filled(p, best, from, |p.q| * |p.t|)
    ensures At(i, j, |p.t|) < |from| && from[At(i, j, |p.t|)] == Best(p, i, j).source
  {
    hide Best, Filled;
    FlatPosition(|p.q|, |p.t|, i, j);
    ReadEntry(p, best, from, |p.q| * |p.t|, i, j);
  }

  /**
   * The positions found so far complete any best alignment up to column `j` of row `i`; once the
   * first row is passed they are an alignment themselves.
   */
  ghost predicate TraceAt(p: Problem, i: int, j: int, tail: seq<int>, score: int, end: nat)
    requires p.Fits()
  {
    && -1 <= i < |p.q| && Linked(p, i + 1, tail)
    && (tail != [] ==> tail[|tail| - 1] == end)
    && if i < 0 then Completes(p, tail, score)
       else
         && 0 <= j < |p.t| && Best(p, i, j) != NOWHERE && CompletedBy(p, i, j, tail, score)
         && if tail == [] then j == end else j == Best(p, i + 1, tail[0]).source
  }

  lemma StartTrace(p: Problem, end: nat)
    requires p.Fits() && end < |p.t| && Best(p, |p.q| - 1, end) != NOWHERE
    ensures TraceAt(p, |p.q| - 1, end, [], Best(p, |p.q| - 1, end).score, end)
  {
    hide Best;
    CompletedAtEnd(p, end);
    NothingLinked(p);
  }

  lemma TraceStep(p: Problem, i: nat, j: int, tail: seq<int>, score: int, end: nat)
    requires p.Fits() && TraceAt(p, i, j, tail, score, end)
    ensures i < |p.q| && 0 <= j < |p.t| && TraceAt(p, i - 1, Best(p, i, j).source, [j] + tail, score, end)
  {
    hide Best, CompletedBy, Completes;
    LinkOn(p, i, j, tail);
    if i == 0 {
      FirstColumn(p, j, tail, score);
    } else {
      StepBack(p, i, j, tail, score);
    }
  }

  lemma EndOfTrace(p: Problem, i: int, j: int, tail: seq<int>, score: int, end: nat)
    requires p.Fits() && i < 0 && TraceAt(p, i, j, tail, score, end)
    ensures Completes(p, tail, score) && Linked(p, 0, tail) && |tail| == |p.q| && tail[|p.q| - 1] == end
  {
    hide Best, Completes;
  }

  /** No entry of the row before column `upto` exceeds `top`. */
  ghost predicate AtMost(p: Problem, i: nat, upto: nat, top: int)
    requires p.Fits() && i < |p.q| && upto <= |p.t|
  {
    forall k: nat :: k < upto ==> Best(p, i, k).score <= top
  }

  /** Every entry of the row before column `upto` is below `top`. */
  ghost predicate Below(p: Problem, i: nat, upto: nat, top: int)
    requires p.Fits() && i < |p.q| && upto <= |p.t|
  {
    forall k: nat :: k < upto ==> Best(p, i, k).score < top
  }

  /** The column with the best score in the last row, the first among equals. */
  method PickEnd(p: Problem, best: array<int>, ghost from: seq<int>) returns (end: int, top: int)
    requires p.Fits() && |p.q| <= |p.t|
    requires Filled(p, best[..], from, |p.q| * |p.t|)
    ensures end < 0 ==> top == NEG
    ensures end >= 0 ==> end < |p.t| && Best(p, |p.q| - 1, end) != NOWHERE && top == Best(p, |p.q| - 1, end).score
    ensures AtMost(p, |p.q| - 1, |p.t|, top)
    ensures end >= 0 ==> Below(p, |p.q| - 1, end, top)
  {
    hide Filled, Gap, Reach;
    var m, n := |p.q|, |p.t|;
    var lastRow := (m - 1) * n;
    end, top := -1, NEG;
    LowerColumns(p);
    hide Best;
    var last := m - 1;
    var j := m - 1;
    while j < n
      invariant m - 1 <= j <= n
      invariant end < 0 ==> top == NEG
      invariant top >= NEG
      invariant end >= 0 ==> end < j && Best(p, last, end) != NOWHERE && top == Best(p, last, end).score
      invariant AtMost(p, last, j, top) && (end >= 0 ==> Below(p, last, end, top))
    {
      ReadEntry(p, best[..], from, m * n, last, j);
      FlatPosition(m, n, last, j);
      assert |best[..]| == best.Length && best[..][lastRow + j] == best[lastRow + j];
      if best[lastRow + j] > top {
        top := best[lastRow + j];
        end := j;
      }
      j := j + 1;
    }
  }

  lemma LowerColumns(p: Problem)
    requires p.Fits() && |p.q| <= |p.t|
    ensures AtMost(p, |p.q| - 1, |p.q| - 1, NEG)
  {
  }

  /** No whole alignment beats the best entry of the last row. */
  lemma LastRowIsBest(p: Problem, e: seq<int>)
    requires p.Fits()
    requires IsEmbedding(p.q, p.t, e)
    ensures Inside(p.text, e)
    ensures 0 <= e[|e| - 1] < |p.t| && Best(p, |p.q| - 1, e[|e| - 1]) != NOWHERE
    ensures Score(p.text, e) <= Best(p, |p.q| - 1, e[|e| - 1]).score
  {
    var i, j := |p.q| - 1, e[|e| - 1];
    assert p.q[..i + 1] == p.q;
    assert EndsAt(p, e, i, j);
    TableIsExact(p, i);
    assert Exact(p, i, j);
    BelowNowhere(p, e, i, j);
  }

  // ----- fuzzyMatch -----

  lemma CellBound(m: nat, n: nat)
    requires 0 < m && m * n <= MAX_ALIGNMENT_CELLS
    ensures n <= MAX_ALIGNMENT_CELLS
  {
    assert 1 * n <= m * n;
  }

  lemma EmbeddingFits(q: string, t: string, e: seq<int>)
    requires IsEmbedding(q, t, e)
    ensures |q| <= |t|
  {
    if |q| > 0 {
      Spread(q, t, e, |q| - 1);
    }
  }

  /**
   * Lines `query` up with `text`, ignoring case. There is a result exactly when the query's
   * characters appear in order; up to the cell limit it is an alignment no other alignment beats,
   * and past it the leftmost one.
   */
  method FuzzyMatch(fold: char -> char, query: string, text: string) returns (r: Option<Match>)
    ensures var (q, t) := (Fold(fold, query), Fold(fold, text));
            && (r.Some? <==> Appears(q, t))
            && (r.Some? ==> IsEmbedding(q, t, r.value.indices))
            && (r.Some? && |query| * |text| <= 32_768 ==>
                  && IsBestMatch(q, t, text, r.value)
                  && forall e :: IsBestMatch(q, t, text, Match(r.value.score, e)) && e != r.value.indices ==>
                       Preferred(r.value.indices, e))
            && (r.Some? && |query| > 0 && |query| * |text| > 32_768 ==>
                  IsLeftmost(q, t, r.value.indices) && r.value.score == FlatScore(text, r.value.indices))
  {
    hide Best, Filled, Fold, FlatScore;
    var m, n := |query|, |text|;
    var q, t := Fold(fold, query), Fold(fold, text);
    if m == 0 {
      EmptyQuery(text, t);
      assert q == [];
      return Some(Match(0, []));
    }
    if m > n {
      forall e | IsEmbedding(q, t, e)
        ensures false
      {
        EmbeddingFits(q, t, e);
      }
      return None;
    }
    var fits := IsSubsequence(q, t);
    if !fits {
      return None;
    }
    if m * n > MAX_ALIGNMENT_CELLS {
      var greedy := GreedyMatch(q, t, text);
      return Some(greedy);
    }
    CellBound(m, n);
    var p := Problem(q, t, text);
    var best, from := FillTables(p);
    var end, top := PickEnd(p, best, from[..]);
    forall e | IsEmbedding(q, t, e)
      ensures end >= 0 && Inside(text, e) && Score(text, e) <= top
    {
      LastRowIsBest(p, e);
      var last := e[|e| - 1];
      assert Best(p, m - 1, last).score <= top;
      BestAboveNowhere(p, e);
    }
    if end < 0 {
      return None;
    }
    var indices := TraceBack(p, best[..], from, end);
    r := Some(Match(top, indices));
    forall e | IsBestMatch(q, t, text, Match(top, e)) && e != indices
      ensures Preferred(indices, e)
    {
      TiesBroken(p, indices, e, top);
    }
  }

  /** As long as an equally good alignment goes the same way from the end, its start is as good as any. */
  lemma {:induction false} SameSoFar(p: Problem, indices: seq<int>, e: seq<int>, top: int, k: nat)
    requires p.Fits() && Linked(p, 0, indices) && Completes(p, e, top)
    requires top == Best(p, |p.q| - 1, indices[|p.q| - 1]).score
    requires k < |p.q| && forall j :: k <= j < |p.q| ==> e[j] == indices[j]
    ensures EndsAt(p, e[..k + 1], k, e[k]) && Inside(p.text, e[..k + 1])
    ensures Score(p.text, e[..k + 1]) == Best(p, k, indices[k]).score
    decreases |p.q| - k
  {
    hide Best, Score, IsEmbedding;
    WholeLength(p, e);
    if k == |p.q| - 1 {
      assert e[..k + 1] == e && p.q[..k + 1] == p.q;
    } else {
      SameSoFar(p, indices, e, top, k + 1);
      var j := indices[k + 1];
      assert Best(p, k + 1, j) != NOWHERE;
      var source := SourceOf(p, k + 1, j);
      LastStep(p, e[..k + 2], k + 1, j);
      assert e[..k + 2][..k + 1] == e[..k + 1];
    }
  }

  lemma WholeLength(p: Problem, e: seq<int>)
    requires IsEmbedding(p.q, p.t, e)
    ensures |e| == |p.q|
  {
  }

  /** Another alignment just as good ends later, or parts from this one by an earlier position. */
  lemma TiesBroken(p: Problem, indices: seq<int>, e: seq<int>, top: int)
    requires p.Fits() && Linked(p, 0, indices) && Completes(p, e, top) && e != indices
    requires top == Best(p, |p.q| - 1, indices[|p.q| - 1]).score
    requires Below(p, |p.q| - 1, indices[|p.q| - 1], top)
    ensures Preferred(indices, e)
  {
    hide Best, Score, IsEmbedding, Exact;
    WholeLength(p, e);
    var m := |p.q|;
    var k := LastDifference(indices, e);
    if k == m - 1 {
      EndsNotBefore(p, e, indices[m - 1], top);
    } else {
      SameSoFar(p, indices, e, top, k + 1);
      var j := indices[k + 1];
      assert Best(p, k + 1, j) != NOWHERE;
      LastStep(p, e[..k + 2], k + 1, j);
      assert e[..k + 2][k] == e[k];
      AttainsEarlier(p, e[..k + 2], k + 1, j);
    }
    assert PartsAt(indices, e, k);
  }

  lemma LastDifference(e: seq<int>, f: seq<int>) returns (k: nat)
    requires |e| == |f| && e != f
    ensures k < |e| && e[k] != f[k] && forall j :: k < j < |e| ==> e[j] == f[j]
  {
    assert (forall j :: 0 <= j < |e| ==> e[j] == f[j]) ==> e == f;
    k := |e| - 1;
    while e[k] == f[k]
      invariant k < |e| && forall j :: k < j < |e| ==> e[j] == f[j]
      invariant exists j :: 0 <= j <= k && e[j] != f[j]
      decreases k
    {
      k := k - 1;
    }
  }

  lemma EndsNotBefore(p: Problem, e: seq<int>, end: nat, top: int)
    requires p.Fits() && Completes(p, e, top) && end < |p.t| && Below(p, |p.q| - 1, end, top)
    ensures |e| == |p.q| && e[|e| - 1] >= end
  {
    hide Best;
    LastRowIsBest(p, e);
  }

  /** A best alignment of a cell that does not come by the cell's own link comes from further left. */
  lemma AttainsEarlier(p: Problem, e: seq<int>, i: nat, j: nat)
    requires p.Fits() && 0 < i < |p.q| && j < |p.t| && Best(p, i, j) != NOWHERE
    requires EndsAt(p, e, i, j) && Inside(p.text, e) && Score(p.text, e) == Best(p, i, j).score
    ensures 0 <= e[i - 1] <= Best(p, i, j).source
  {
    hide Score, IsEmbedding, Reach, Gap;
    LastStep(p, e, i, j);
    EndsMatches(p, e, i, j);
    var k := e[i - 1];
    TableIsExact(p, i - 1);
    assert Exact(p, i - 1, k);
    BelowNowhere(p, e[..i], i - 1, k);
    if k > Best(p, i, j).source {
      ReachIsLatest(p, i, j, k);
    }
  }

  lemma BestAboveNowhere(p: Problem, e: seq<int>)
    requires p.Fits() && IsEmbedding(p.q, p.t, e)
    ensures Inside(p.text, e) && Score(p.text, e) > NEG
  {
    ScoreLowerBound(p.q, p.t, p.text, e);
  }

  lemma EmptyQuery(text: string, t: string)
    requires |t| == |text|
    ensures IsEmbedding([], t, []) && Inside(text, []) && Score(text, []) == 0
    ensures forall e :: IsEmbedding([], t, e) ==> e == []
  {
  }
}
