/**
 * Embeddings of a query in a text, what they score, and the two scans that need no table: whether
 * there is one, and the leftmost one.
 */
module MentionMatch {
  const SCORE_MATCH := 16
  const GAP_START := 3
  const GAP_EXTENSION := 1
  const BONUS_CONSECUTIVE := 5
  const BONUS_FIRST_CHAR := 10
  const BONUS_AFTER_SLASH := 10
  const BONUS_AFTER_SEPARATOR := 8
  const BONUS_CAMEL := 7
  const BONUS_DIGIT := 4

  /** The largest table, query length times text length, that is filled; beyond it the leftmost embedding is taken. */
  const MAX_ALIGNMENT_CELLS := 32_768

  /** Stands for "no alignment"; far below any score a real one can have. */
  const NEG := -1_000_000_000

  datatype Match = Match(score: int, indices: seq<int>)

  predicate IsUpper(c: char) { 'A' <= c <= 'Z' }
  predicate IsLower(c: char) { 'a' <= c <= 'z' }
  predicate IsDigit(c: char) { '0' <= c <= '9' }

  /** The premium of a position: the start of the text or of a word in it, a hump or a number. */
  function PositionBonus(text: string, i: nat): (b: int)
    requires i < |text|
    ensures 0 <= b <= 10
  {
    if i == 0 then BONUS_FIRST_CHAR
    else
      var prev := text[i - 1];
      if prev == '/' || prev == '\\' then BONUS_AFTER_SLASH
      else if prev == '-' || prev == '_' || prev == '.' || prev == ' ' then BONUS_AFTER_SEPARATOR
      else if IsLower(prev) && IsUpper(text[i]) then BONUS_CAMEL
      else if !IsDigit(prev) && IsDigit(text[i]) then BONUS_DIGIT
      else 0
  }

  /** The text with every character folded to lower case. */
  function Fold(fold: char -> char, s: string): (r: string)
    ensures |r| == |s| && forall i :: 0 <= i < |s| ==> r[i] == fold(s[i])
  {
    seq(|s|, i requires 0 <= i < |s| => fold(s[i]))
  }

  // ----- Alignments and what they score -----

  /** Positions of `t` that spell `q`, in order. */
  ghost predicate IsEmbedding(q: string, t: string, e: seq<int>) {
    && |e| == |q|
    && (forall k :: 0 <= k < |e| ==> 0 <= e[k] < |t| && t[e[k]] == q[k])
    && (forall k :: 0 < k < |e| ==> e[k - 1] < e[k])
  }

  /** The query's characters appear in the text in order. */
  ghost predicate Appears(q: string, t: string) {
    exists e :: IsEmbedding(q, t, e)
  }

  function Own(text: string, j: int): int
    requires 0 <= j < |text|
  {
    SCORE_MATCH + PositionBonus(text, j)
  }

  /** What the step from one matched position to the next adds: adjacent, or an affine gap. */
  function Link(a: int, b: int): int {
    if b == a + 1 then BONUS_CONSECUTIVE else -GAP_START - GAP_EXTENSION * (b - a - 2)
  }

  ghost predicate Inside(text: string, e: seq<int>) {
    forall k :: 0 <= k < |e| ==> 0 <= e[k] < |text|
  }

  /** The score of an alignment: its characters and the steps between them. */
  ghost function Score(text: string, e: seq<int>): int
    requires Inside(text, e)
  {
    if |e| == 0 then 0
    else if |e| == 1 then Own(text, e[0])
    else Score(text, e[..|e| - 1]) + Link(e[|e| - 2], e[|e| - 1]) + Own(text, e[|e| - 1])
  }

  /** The greedy path's score: a gap costs the same however long it is. */
  ghost function FlatScore(text: string, e: seq<int>): int
    requires Inside(text, e)
  {
    if |e| == 0 then 0
    else if |e| == 1 then Own(text, e[0])
    else FlatScore(text, e[..|e| - 1])
         + (if e[|e| - 1] == e[|e| - 2] + 1 then BONUS_CONSECUTIVE else -GAP_START)
         + Own(text, e[|e| - 1])
  }

  /** Positions of an embedding keep at least their distance in the query. */
  lemma {:induction false} Spread(q: string, t: string, e: seq<int>, k: nat)
    requires IsEmbedding(q, t, e)
    requires k < |e|
    ensures k <= e[k] <= e[|e| - 1]
    ensures e[0] <= e[k]
    decreases k
  {
    if k > 0 {
      Spread(q, t, e, k - 1);
    }
    Rising(q, t, e, k, |e| - 1);
  }

  lemma Rising(q: string, t: string, e: seq<int>, j: nat, k: nat)
    requires IsEmbedding(q, t, e)
    requires j <= k < |e|
    ensures e[j] <= e[k]
    decreases k
  {
    if j < k {
      Rising(q, t, e, j, k - 1);
    }
  }

  /** Dropping the last position leaves an embedding of the query without its last character. */
  lemma Shorten(q: string, t: string, e: seq<int>)
    requires |q| > 0 && IsEmbedding(q, t, e)
    ensures IsEmbedding(q[..|q| - 1], t, e[..|e| - 1])
  {
  }

  /** No alignment scores less than minus the span it covers. */
  lemma {:induction false} ScoreLowerBound(q: string, t: string, text: string, e: seq<int>)
    requires |q| > 0 && IsEmbedding(q, t, e) && |t| == |text|
    ensures Score(text, e) >= 16 - (e[|e| - 1] - e[0])
    decreases |q|
  {
    if |q| > 1 {
      Shorten(q, t, e);
      ScoreLowerBound(q[..|q| - 1], t, text, e[..|e| - 1]);
    }
  }

  /** Flat gaps never cost more than affine ones. */
  lemma {:induction false} FlatIsGenerous(q: string, t: string, text: string, e: seq<int>)
    requires IsEmbedding(q, t, e) && |t| == |text|
    ensures FlatScore(text, e) >= Score(text, e)
    decreases |q|
  {
    if |q| > 1 {
      Shorten(q, t, e);
      FlatIsGenerous(q[..|q| - 1], t, text, e[..|e| - 1]);
    }
  }

  // ----- What the score rewards -----

  /** The position opens the text or a part of a path. */
  predicate OpensPart(text: string, i: nat)
    requires i < |text|
  {
    i == 0 || text[i - 1] in {'/', '\\'}
  }

  /** It opens a word within a part. */
  predicate OpensWord(text: string, i: nat)
    requires i < |text|
  {
    i > 0 && text[i - 1] in {'-', '_', '.', ' '}
  }

  /** A capital right after a small letter. */
  predicate IsHump(text: string, i: nat)
    requires i < |text|
  {
    i > 0 && 'a' <= text[i - 1] <= 'z' && 'A' <= text[i] <= 'Z'
  }

  /** The first digit of a number. */
  predicate OpensNumber(text: string, i: nat)
    requires i < |text|
  {
    i > 0 && !('0' <= text[i - 1] <= '9') && '0' <= text[i] <= '9'
  }

  /** One matched character is worth 26 at the start of a part, 24 of a word, 23 at a hump, 20 at a number, else 16. */
  lemma Worth(text: string, i: nat)
    requires i < |text|
    ensures OpensPart(text, i) ==> Own(text, i) == 26
    ensures OpensWord(text, i) ==> Own(text, i) == 24
    ensures IsHump(text, i) ==> Own(text, i) == 23
    ensures OpensNumber(text, i) && !OpensPart(text, i) && !OpensWord(text, i) ==> Own(text, i) == 20
    ensures !OpensPart(text, i) && !OpensWord(text, i) && !IsHump(text, i) && !OpensNumber(text, i) ==>
              Own(text, i) == 16
  {
  }

  function Sum(s: seq<int>): int {
    if s == [] then 0 else s[0] + Sum(s[1..])
  }

  lemma {:induction false} SumAppend(s: seq<int>, x: int)
    ensures Sum(s + [x]) == Sum(s) + x
    decreases |s|
  {
    if s == [] {
      assert [] + [x] == [x] && [x][1..] == [];
    } else {
      assert (s + [x])[1..] == s[1..] + [x];
      SumAppend(s[1..], x);
    }
  }

  /** What each matched character is worth. */
  ghost function Owns(text: string, e: seq<int>): (r: seq<int>)
    requires Inside(text, e)
    ensures |r| == |e|
  {
    seq(|e|, k requires 0 <= k < |e| => Own(text, e[k]))
  }

  /** What each step to the next adds or takes: five for none skipped, else two off and one for each skipped. */
  ghost function Steps(e: seq<int>): (r: seq<int>)
    ensures |e| > 0 ==> |r| == |e| - 1
  {
    if e == [] then []
    else seq(|e| - 1, k requires 0 <= k < |e| - 1 =>
           if e[k + 1] == e[k] + 1 then 5 else -2 - (e[k + 1] - e[k] - 1))
  }

  /** A score is the sum of these. */
  lemma {:induction false} ScoreIsSum(text: string, e: seq<int>)
    requires Inside(text, e)
    ensures Score(text, e) == Sum(Owns(text, e)) + Sum(Steps(e))
    decreases |e|
  {
    hide Own, Owns, Steps, Link;
    if |e| <= 1 {
      NoSteps(text, e);
    } else {
      var front, last := e[..|e| - 1], e[|e| - 1];
      ScoreIsSum(text, front);
      LastPosition(text, e);
      SumAppend(Owns(text, front), Own(text, last));
      SumAppend(Steps(front), Link(e[|e| - 2], last));
    }
  }

  lemma NoSteps(text: string, e: seq<int>)
    requires Inside(text, e) && |e| <= 1
    ensures Sum(Steps(e)) == 0 && Sum(Owns(text, e)) == if e == [] then 0 else Own(text, e[0])
  {
    hide Own;
    assert |e| == 1 ==> Owns(text, e) == [Own(text, e[0])] && Owns(text, e)[1..] == [];
  }

  lemma LastPosition(text: string, e: seq<int>)
    requires Inside(text, e) && |e| > 1
    ensures Owns(text, e) == Owns(text, e[..|e| - 1]) + [Own(text, e[|e| - 1])]
    ensures Steps(e) == Steps(e[..|e| - 1]) + [Link(e[|e| - 2], e[|e| - 1])]
  {
    hide Own;
    var front := e[..|e| - 1];
    assert forall k :: 0 <= k < |front| ==> front[k] == e[k];
  }

  /** What the greedy path charges for each step: five for none skipped, else three off. */
  ghost function FlatSteps(e: seq<int>): (r: seq<int>)
    ensures |e| > 0 ==> |r| == |e| - 1
  {
    if e == [] then []
    else seq(|e| - 1, k requires 0 <= k < |e| - 1 => if e[k + 1] == e[k] + 1 then 5 else -3)
  }

  lemma {:induction false} FlatScoreIsSum(text: string, e: seq<int>)
    requires Inside(text, e)
    ensures FlatScore(text, e) == Sum(Owns(text, e)) + Sum(FlatSteps(e))
    decreases |e|
  {
    hide Own, Owns, Steps, FlatSteps;
    if |e| <= 1 {
      NoSteps(text, e);
      NoFlatSteps(e);
    } else {
      var front, last := e[..|e| - 1], e[|e| - 1];
      FlatScoreIsSum(text, front);
      LastPosition(text, e);
      LastFlatStep(e);
      SumAppend(Owns(text, front), Own(text, last));
      SumAppend(FlatSteps(front), if last == e[|e| - 2] + 1 then 5 else -3);
    }
  }

  lemma NoFlatSteps(e: seq<int>)
    requires |e| <= 1
    ensures Sum(FlatSteps(e)) == 0
  {
  }

  lemma LastFlatStep(e: seq<int>)
    requires |e| > 1
    ensures FlatSteps(e) == FlatSteps(e[..|e| - 1]) + [if e[|e| - 1] == e[|e| - 2] + 1 then 5 else -3]
  {
    var front := e[..|e| - 1];
    assert forall k :: 0 <= k < |front| ==> front[k] == e[k];
  }

  lemma {:induction false} SumsDiffer(s: seq<int>, r: seq<int>, k: nat)
    requires |s| == |r| && k < |s|
    requires forall j :: 0 <= j < |s| && j != k ==> s[j] == r[j]
    ensures Sum(s) - Sum(r) == s[k] - r[k]
    decreases |s|
  {
    if k == 0 {
      assert s[1..] == r[1..];
    } else {
      SumsDiffer(s[1..], r[1..], k - 1);
    }
  }

  /**
   * Of two alignments that differ in one position and whose steps come to the same, the one that
   * has it at the start of a part or a word wins over one that does not.
   */
  lemma WordStartWins(text: string, e: seq<int>, f: seq<int>, k: nat)
    requires Inside(text, e) && Inside(text, f) && |e| == |f| && k < |e|
    requires forall j :: 0 <= j < |e| && j != k ==> e[j] == f[j]
    requires Sum(Steps(e)) == Sum(Steps(f))
    requires OpensPart(text, e[k]) || OpensWord(text, e[k])
    requires !OpensPart(text, f[k]) && !OpensWord(text, f[k])
    ensures Score(text, e) > Score(text, f)
  {
    hide Own;
    ScoreIsSum(text, e);
    ScoreIsSum(text, f);
    SumsDiffer(Owns(text, e), Owns(text, f), k);
    Worth(text, e[k]);
    Worth(text, f[k]);
  }

  /** What an alignment no other beats looks like. */
  ghost predicate IsBestMatch(q: string, t: string, text: string, m: Match) {
    && IsEmbedding(q, t, m.indices) && Inside(text, m.indices) && m.score == Score(text, m.indices)
    && forall e :: IsEmbedding(q, t, e) ==> Inside(text, e) && Score(text, e) <= m.score
  }

  /**
   * Which of two alignments is taken, read from the end: the one that ends earlier, or, where they
   * first part from there, the one whose position is later.
   */
  ghost predicate Preferred(e: seq<int>, f: seq<int>) {
    exists k :: 0 <= k < |e| && PartsAt(e, f, k)
  }

  ghost predicate PartsAt(e: seq<int>, f: seq<int>, k: int)
    requires 0 <= k < |e|
  {
    && |e| == |f| && (forall j :: k < j < |e| ==> e[j] == f[j])
    && if k == |e| - 1 then e[k] < f[k] else f[k] < e[k]
  }

  /**
   * A one-character query is lined up with an occurrence at the start of the text or of a part of
   * it, if there is one; else of a word; else at a hump; else at a number; else with any.
   */
  lemma OneCharacter(q: string, t: string, text: string, m: Match)
    requires |q| == 1 && |t| == |text| && IsBestMatch(q, t, text, m)
    ensures |m.indices| == 1 && 0 <= m.indices[0] < |text| && t[m.indices[0]] == q[0]
    ensures forall i :: 0 <= i < |text| && t[i] == q[0] ==>
              && (OpensPart(text, i) ==> m.score == 26 && OpensPart(text, m.indices[0]))
              && (OpensWord(text, i) ==> m.score >= 24
                                         && (OpensPart(text, m.indices[0]) || OpensWord(text, m.indices[0])))
              && (IsHump(text, i) ==> m.score >= 23)
              && (OpensNumber(text, i) ==> m.score >= 20)
  {
    hide Own;
    var best := m.indices[0];
    Worth(text, best);
    assert m.score == Own(text, best);
    forall i | 0 <= i < |text| && t[i] == q[0]
      ensures Own(text, i) <= m.score
      ensures OpensPart(text, i) ==> Own(text, i) == 26
      ensures OpensWord(text, i) ==> Own(text, i) == 24
      ensures IsHump(text, i) ==> Own(text, i) == 23
      ensures OpensNumber(text, i) ==> Own(text, i) >= 20
    {
      assert IsEmbedding(q, t, [i]);
      assert Score(text, [i]) == Own(text, i);
      Worth(text, i);
    }
  }

  // ----- First fit -----

  /** `e` never sits to the right of another embedding. */
  ghost predicate IsLeftmost(q: string, t: string, e: seq<int>) {
    IsEmbedding(q, t, e) && forall f, k :: IsEmbedding(q, t, f) && 0 <= k < |e| ==> e[k] <= f[k]
  }

  /** Every embedding has its `j`th position at `i` or later. */
  ghost predicate NotBefore(q: string, t: string, j: nat, i: nat) {
    j < |q| ==> forall f :: IsEmbedding(q, t, f) ==> i <= f[j]
  }

  lemma NotBeforeStart(q: string, t: string)
    ensures NotBefore(q, t, 0, 0)
  {
  }

  lemma EmptyFlat(text: string)
    ensures FlatScore(text, []) == 0
  {
  }

  /** A position at or past the end means there is no such position. */
  lemma NotBeforeEnd(q: string, t: string, j: nat)
    requires j <= |q| && NotBefore(q, t, j, |t|)
    requires Appears(q, t)
    ensures j == |q|
  {
    var e :| IsEmbedding(q, t, e);
  }

  /** Nothing of a later position can come earlier. */
  lemma NotBeforeBound(q: string, t: string, j: nat, i: nat, f: seq<int>)
    requires j < |q| && NotBefore(q, t, j, i) && IsEmbedding(q, t, f)
    ensures i <= f[j]
  {
  }

  lemma NotBeforeNext(q: string, t: string, j: nat, i: nat)
    requires i < |t| && j < |q| && NotBefore(q, t, j, i)
    ensures if t[i] == q[j] then NotBefore(q, t, j + 1, i + 1) else NotBefore(q, t, j, i + 1)
  {
    if t[i] == q[j] {
      forall f | j + 1 < |q| && IsEmbedding(q, t, f)
        ensures i + 1 <= f[j + 1]
      {
        assert f[j] < f[j + 1];
      }
    } else {
      forall f | IsEmbedding(q, t, f)
        ensures i + 1 <= f[j]
      {
        assert t[f[j]] == q[j];
      }
    }
  }

  lemma AppendPosition(q: string, t: string, e: seq<int>, j: nat, i: nat)
    requires j < |q| && i < |t| && t[i] == q[j]
    requires IsEmbedding(q[..j], t, e) && (j > 0 ==> e[j - 1] < i)
    ensures IsEmbedding(q[..j + 1], t, e + [i])
  {
    assert q[..j + 1] == q[..j] + [q[j]];
  }

  lemma AppendFlat(text: string, e: seq<int>, i: nat)
    requires Inside(text, e) && i < |text|
    ensures FlatScore(text, e + [i]) ==
            FlatScore(text, e) + Own(text, i)
            + if |e| == 0 then 0 else if i == e[|e| - 1] + 1 then BONUS_CONSECUTIVE else -GAP_START
  {
    assert (e + [i])[..|e|] == e;
  }

  method IsSubsequence(q: string, t: string) returns (r: bool)
    ensures r <==> Appears(q, t)
  {
    var j := 0;
    var i := 0;
    ghost var e: seq<int> := [];
    while i < |t| && j < |q|
      invariant 0 <= i <= |t| && 0 <= j <= |q|
      invariant IsEmbedding(q[..j], t, e) && (j > 0 ==> e[j - 1] < i)
      invariant NotBefore(q, t, j, i)
    {
      NotBeforeNext(q, t, j, i);
      if t[i] == q[j] {
        AppendPosition(q, t, e, j, i);
        e := e + [i];
        j := j + 1;
      }
      i := i + 1;
    }
    if j == |q| {
      assert q[..j] == q;
    }
    r := j == |q|;
  }

  /** Takes each query character at its first chance: the leftmost embedding, every gap at one price. */
  method GreedyMatch(q: string, t: string, text: string) returns (r: Match)
    requires |t| == |text|
    requires Appears(q, t)
    ensures IsLeftmost(q, t, r.indices)
    ensures r.score == FlatScore(text, r.indices)
  {
    hide FlatScore, NotBefore, PositionBonus;
    NotBeforeStart(q, t);
    EmptyFlat(text);
    var indices: seq<int> := [];
    var score := 0;
    var prev := -2;
    var i, j := 0, 0;
    while i < |t| && j < |q|
      invariant 0 <= i <= |t| && 0 <= j <= |q|
      invariant IsEmbedding(q[..j], t, indices)
      invariant prev == if j == 0 then -2 else indices[j - 1]
      invariant prev < i
      invariant NotBefore(q, t, j, i)
      invariant forall f, k :: IsEmbedding(q, t, f) && 0 <= k < j ==> indices[k] <= f[k]
      invariant Inside(text, indices) && score == FlatScore(text, indices)
    {
      NotBeforeNext(q, t, j, i);
      if t[i] == q[j] {
        AppendPosition(q, t, indices, j, i);
        AppendFlat(text, indices, i);
        forall f | IsEmbedding(q, t, f)
          ensures i <= f[j]
        {
          NotBeforeBound(q, t, j, i, f);
        }
        score := score + SCORE_MATCH + PositionBonus(text, i)
          + (if i == prev + 1 then BONUS_CONSECUTIVE else if prev >= 0 then -GAP_START else 0);
        indices := indices + [i];
        prev := i;
        j := j + 1;
      }
      i := i + 1;
    }
    if j < |q| {
      NotBeforeEnd(q, t, j);
    }
    assert q[..j] == q;
    r := Match(score, indices);
  }
}
