/**
 * How a chat turn starts its session: what the rows of the page say about resuming, cutting back
 * or starting afresh, and what earlier text goes in front of the prompt.
 */
module TurnPlan {
  import opened Text
  import opened Wrappers

  datatype Role = User | Assistant

  /**
   * A row of the page. `cutPending` marks a user row the page was cut back to; `session` and
   * `tail` are where an assistant row's turn ended in its session; `join` is a user row's turn.
   */
  datatype Row = Row(
    id: nat,
    role: Role,
    text: string,
    cutPending: bool,
    join: Option<nat>,
    session: Option<nat>,
    tail: Option<nat>)

  const PREAMBLE_ROW_MAX_CHARS := 4_000
  const KEPT_HISTORY_ROWS := 200

  // ----- Earlier text -----

  predicate Speaks(row: Row) { Trim(row.text) != "" }

  function Spoken(rows: seq<Row>): seq<Row> {
    if rows == [] then []
    else Spoken(rows[..|rows| - 1]) + if Speaks(rows[|rows| - 1]) then [rows[|rows| - 1]] else []
  }

  function Clip(text: string): string {
    if |text| > PREAMBLE_ROW_MAX_CHARS then text[..PREAMBLE_ROW_MAX_CHARS] + " [\U{2026}]" else text
  }

  function TurnText(row: Row): string {
    (if row.role == User then "User: " else "Assistant: ") + Clip(Trim(row.text))
  }

  function TurnTexts(rows: seq<Row>): (r: seq<string>)
    ensures |r| == |rows| && forall i :: 0 <= i < |rows| ==> r[i] == TurnText(rows[i])
  {
    seq(|rows|, i requires 0 <= i < |rows| => TurnText(rows[i]))
  }

  function Total(turns: seq<string>): nat {
    if turns == [] then 0 else |turns[0]| + Total(turns[1..])
  }

  /** How many of the latest turns the budget keeps: all that fit, and the last one regardless. */
  ghost predicate IsKept(turns: seq<string>, max: nat, n: nat) {
    && n <= |turns| && (|turns| > 0 ==> n > 0)
    && (n > 1 ==> Total(turns[|turns| - n..]) <= max)
    && (n < |turns| ==> Total(turns[|turns| - n - 1..]) > max)
  }

  lemma TotalSuffix(turns: seq<string>, k: nat)
    requires k < |turns|
    ensures Total(turns[k..]) == |turns[k]| + Total(turns[k + 1..])
  {
    assert turns[k..][1..] == turns[k + 1..];
  }

  lemma TotalShrinks(turns: seq<string>, j: nat, k: nat)
    requires j <= k <= |turns|
    ensures Total(turns[k..]) <= Total(turns[j..])
    decreases k - j
  {
    if j < k {
      TotalSuffix(turns, j);
      TotalShrinks(turns, j + 1, k);
    }
  }

  /** There is only one such number. */
  lemma KeptUnique(turns: seq<string>, max: nat, n1: nat, n2: nat)
    requires IsKept(turns, max, n1) && IsKept(turns, max, n2) && n1 <= n2
    ensures n1 == n2
  {
    hide Total;
    if n1 < n2 {
      TotalShrinks(turns, |turns| - n2, |turns| - n1 - 1);
    }
  }

  /** `kept` is the turns from `k` on, and `used` their length. */
  ghost predicate KeptFrom(turns: seq<string>, k: nat, kept: seq<string>, used: nat) {
    k <= |turns| && kept == turns[k..] && used == Total(kept)
  }

  lemma KeepOne(turns: seq<string>, i: nat, kept: seq<string>, used: nat)
    requires i < |turns| && KeptFrom(turns, i + 1, kept, used)
    ensures KeptFrom(turns, i, [turns[i]] + kept, used + |turns[i]|)
    ensures |[turns[i]] + kept| == |turns| - i
  {
    TotalSuffix(turns, i);
    assert [turns[i]] + kept == turns[i..];
  }

  /** Stopping at the first turn that does not fit, or at none, keeps the right number. */
  lemma StopsHere(turns: seq<string>, max: nat, i: int, kept: seq<string>, used: nat)
    requires |turns| > 0 && -1 <= i < |turns| && KeptFrom(turns, i + 1, kept, used)
    requires |kept| > 1 ==> used <= max
    requires i >= 0 ==> |kept| > 0 && used + |turns[i]| > max
    ensures IsKept(turns, max, |kept|) && kept == turns[|turns| - |kept|..]
  {
    hide Total;
    assert i + 1 == |turns| - |kept|;
    if i >= 0 {
      TotalSuffix(turns, i);
      assert i == |turns| - |kept| - 1;
    }
  }

  /** The budget loop: takes turns from the end while they fit. */
  method KeepLatest(turns: seq<string>, max: nat) returns (kept: seq<string>)
    requires |turns| > 0
    ensures IsKept(turns, max, |kept|) && kept == turns[|turns| - |kept|..]
  {
    kept := [];
    var used: nat := 0;
    var i := |turns| - 1;
    assert KeptFrom(turns, |turns|, [], 0);
    hide KeptFrom, IsKept;
    while i >= 0
      invariant -1 <= i < |turns|
      invariant KeptFrom(turns, i + 1, kept, used)
      invariant |kept| > 1 ==> used <= max
    {
      var turn := turns[i];
      if used + |turn| > max && |kept| > 0 {
        break;
      }
      KeepOne(turns, i, kept, used);
      used := used + |turn|;
      kept := [turn] + kept;
      i := i - 1;
    }
    StopsHere(turns, max, i, kept, used);
  }

  /** The text of the last `n` turns, saying so when earlier ones are left out. */
  function Formatted(turns: seq<string>, n: nat): Option<string>
    requires n <= |turns|
  {
    if turns == [] then None
    else Some((if n < |turns| then "(Earlier messages omitted.)\n\n" else "") + Join(turns[|turns| - n..], "\n\n"))
  }

  /** The text is that of the `n` latest turns the budget keeps. */
  ghost predicate IsFormatted(rows: seq<Row>, max: nat, n: nat, text: Option<string>) {
    var turns := TurnTexts(Spoken(rows));
    IsKept(turns, max, n) && text == Formatted(turns, n)
  }

  /** A row's text, trimmed, of which at most four thousand characters are read, with a mark behind them. */
  function AsRead(text: string): string {
    var t := Trim(text);
    if |t| <= 4000 then t else t[..4000] + " [\U{2026}]"
  }

  /** How an exchange reads: both turns with who said them, or the reply alone and that something is left out. */
  lemma ExchangeReads(question: Row, answer: Row, max: nat, n: nat, text: Option<string>)
    requires question.role == User && answer.role == Assistant
    requires Trim(question.text) != "" && Trim(answer.text) != ""
    requires IsFormatted([question, answer], max, n, text)
    ensures var (q, a) := ("User: " + AsRead(question.text), "Assistant: " + AsRead(answer.text));
            text == Some(if |q| + |a| <= max then q + "\n\n" + a else "(Earlier messages omitted.)\n\n" + a)
  {
    hide Trim, Spoken, Join, Total, TurnTexts, IsKept;
    var (q, a) := (TurnText(question), TurnText(answer));
    TwoSpoken(question, answer);
    var turns := TurnTexts(Spoken([question, answer]));
    assert turns == [q, a];
    assert turns[1..] == [a] && turns[0..] == [q, a];
    assert "" + (q + "\n\n" + a) == q + "\n\n" + a;
    TwoKept(q, a, max, n);
    TwoJoined(q, a);
  }

  lemma TwoKept(q: string, a: string, max: nat, n: nat)
    requires IsKept([q, a], max, n)
    ensures n == if |q| + |a| <= max then 2 else 1
  {
    hide Total;
    TwoTotal(q, a);
    assert [q, a][0..] == [q, a];
  }

  lemma TwoTotal(q: string, a: string)
    ensures Total([q, a]) == |q| + |a|
  {
    assert [q, a][1..] == [a] && [a][1..] == [];
    assert Total([]) == 0;
    assert Total([a]) == |a|;
  }

  lemma TwoJoined(q: string, a: string)
    ensures Join([q, a], "\n\n") == q + "\n\n" + a && Join([a], "\n\n") == a
  {
    assert [q, a][1..] == [a];
  }

  lemma TwoSpoken(a: Row, b: Row)
    requires Speaks(a) && Speaks(b)
    ensures Spoken([a, b]) == [a, b]
  {
    hide Speaks;
    assert [a, b][..1] == [a] && [a][..0] == [];
    assert Spoken([]) == [] && Spoken([a]) == [] + [a];
  }

  /** The text of as many of the latest turns as the budget allows; nothing when no row says anything. */
  method FormatTurns(rows: seq<Row>, max: nat) returns (text: Option<string>)
    ensures exists n: nat :: IsFormatted(rows, max, n, text)
  {
    hide TurnTexts, Spoken, Join, Total;
    var turns := TurnTexts(Spoken(rows));
    if |turns| == 0 {
      NothingKept(turns, max);
      assert IsFormatted(rows, max, 0, None);
      return None;
    }
    var kept := KeepLatest(turns, max);
    var omitted := if |kept| < |turns| then "(Earlier messages omitted.)\n\n" else "";
    text := Some(omitted + Join(kept, "\n\n"));
    assert IsFormatted(rows, max, |kept|, text);
  }

  lemma NothingKept(turns: seq<string>, max: nat)
    requires turns == []
    ensures IsKept(turns, max, 0)
  {
  }

  /** What the user has said since the assistant last spoke. */
  function UnansweredTail(rows: seq<Row>): seq<Row> {
    if rows == [] || rows[|rows| - 1].role == Assistant then []
    else UnansweredTail(rows[..|rows| - 1]) + [rows[|rows| - 1]]
  }

  /** The scan for the last reply, then what follows it. */
  method FindUnanswered(rows: seq<Row>) returns (r: seq<Row>)
    ensures r == UnansweredTail(rows)
    ensures exists k :: 0 <= k <= |rows| && r == rows[k..] && (k > 0 ==> rows[k - 1].role == Assistant)
  {
    var lastReply := -1;
    var i := |rows| - 1;
    while i >= 0
      invariant -1 <= i < |rows|
      invariant lastReply == -1
      invariant forall k :: i < k < |rows| ==> rows[k].role == User
    {
      if rows[i].role == Assistant {
        lastReply := i;
        break;
      }
      i := i - 1;
    }
    r := rows[lastReply + 1..];
    TailIsSuffix(rows, lastReply + 1);
  }

  lemma TailStep(rows: seq<Row>)
    requires rows != [] && rows[|rows| - 1].role == User
    ensures UnansweredTail(rows) == UnansweredTail(rows[..|rows| - 1]) + [rows[|rows| - 1]]
  {
  }

  lemma FrontAndLast<T>(s: seq<T>, k: nat)
    requires k < |s|
    ensures s[..|s| - 1][k..] + [s[|s| - 1]] == s[k..]
  {
  }

  lemma {:induction false} TailIsSuffix(rows: seq<Row>, k: nat)
    requires k <= |rows| && (k > 0 ==> rows[k - 1].role == Assistant)
    requires forall i :: k <= i < |rows| ==> rows[i].role == User
    ensures UnansweredTail(rows) == rows[k..]
    decreases |rows|
  {
    if k < |rows| {
      TailIsSuffix(rows[..|rows| - 1], k);
      TailStep(rows);
      FrontAndLast(rows, k);
    } else {
      assert rows[k..] == [];
    }
  }

  lemma {:induction false} TailRows(rows: seq<Row>)
    ensures forall row :: row in UnansweredTail(rows) ==> row in rows && row.role == User
  {
    if rows != [] && rows[|rows| - 1].role != Assistant {
      TailRows(rows[..|rows| - 1]);
    }
  }

  lemma {:induction false} SpokenRows(rows: seq<Row>)
    ensures forall row :: row in Spoken(rows) <==> row in rows && Speaks(row)
  {
    if rows != [] {
      SpokenRows(rows[..|rows| - 1]);
      assert rows == rows[..|rows| - 1] + [rows[|rows| - 1]];
    }
  }

  /** Text that begins with a slash and a letter, which the CLI takes for one of its commands. */
  predicate IsSlashCommand(text: string) {
    var t := TrimStart(text);
    |t| >= 2 && t[0] == '/' && ('A' <= t[1] <= 'Z' || 'a' <= t[1] <= 'z')
  }

  // ----- The plan -----

  datatype Kind = Continue(resume: Option<nat>) | Fork(session: nat, at: nat) | Fresh

  /** How one attempt starts, and the earlier rows whose text goes in front of its prompt. */
  datatype Attempt = Attempt(kind: Kind, shown: seq<Row>)

  datatype Plan = Plan(first: Attempt, fallback: Option<Attempt>)

  predicate AnyPending(rows: seq<Row>) {
    exists k :: 0 <= k < |rows| && rows[k].role == User && rows[k].cutPending
  }

  function LastAssistant(rows: seq<Row>): (r: Option<nat>)
    ensures r.Some? ==> r.value < |rows| && rows[r.value].role == Assistant
    ensures r.Some? ==> forall k :: r.value < k < |rows| ==> rows[k].role != Assistant
    ensures r.None? ==> forall k :: 0 <= k < |rows| ==> rows[k].role != Assistant
  {
    if rows == [] then None
    else if rows[|rows| - 1].role == Assistant then Some(|rows| - 1)
    else
      var front := rows[..|rows| - 1];
      assert forall k :: 0 <= k < |front| ==> front[k] == rows[k];
      LastAssistant(front)
  }

  function Latest(rows: seq<Row>, n: nat): seq<Row> {
    if |rows| <= n then rows else rows[|rows| - n..]
  }

  /** `resolveTurnResume`. */
  function ResolveTurnResume(
    cut: bool, session: Option<nat>, previous: Option<Row>, kept: seq<Row>, unanswered: seq<Row>): Plan
  {
    if !cut then Plan(Attempt(Continue(session), []), None)
    else
      var restart := Attempt(Fresh, Spoken(kept));
      if session.Some? && previous.Some? && previous.value.tail.Some? && previous.value.session == session then
        Plan(Attempt(Fork(session.value, previous.value.tail.value), Spoken(unanswered)), Some(restart))
      else Plan(restart, None)
  }

  /** `planTurn` for the user row at `pivot`. */
  function PlanTurn(rows: seq<Row>, session: Option<nat>, pivot: nat, regenerate: bool): Plan
    requires pivot < |rows|
  {
    var before := rows[..pivot];
    var kept := Latest(before, KEPT_HISTORY_ROWS);
    var previous := LastAssistant(before);
    ResolveTurnResume(
      regenerate || AnyPending(rows),
      session,
      match previous case Some(k) => Some(before[k]) case None => None,
      kept,
      if IsSlashCommand(rows[pivot].text) then [] else UnansweredTail(kept))
  }

  // ----- What a plan shows -----

  /** The positions that are quoted: exactly those from `low` to `high` whose rows say something, in page order. */
  ghost predicate QuotedAt(rows: seq<Row>, shown: seq<Row>, low: int, high: int, at: seq<nat>)
    requires high <= |rows|
  {
    && |at| == |shown| && (forall i, j :: 0 <= i < j < |at| ==> at[i] < at[j])
    && (forall i :: 0 <= i < |at| ==> at[i] < |rows| && shown[i] == rows[at[i]])
    && (forall k: nat :: k in at <==> low <= k < high && Trim(rows[k].text) != "")
  }

  ghost predicate Quotes(rows: seq<Row>, shown: seq<Row>, low: nat, high: nat)
    requires high <= |rows|
  {
    exists at: seq<nat> :: QuotedAt(rows, shown, low, high, at)
  }

  lemma {:induction false} SpokenIsQuoted(rows: seq<Row>, low: nat, high: nat)
    requires low <= high <= |rows|
    ensures Quotes(rows, Spoken(rows[low..high]), low, high)
    decreases high - low
  {
    hide QuotedAt, Speaks;
    if low == high {
      NothingQuoted(rows, low);
    } else {
      SpokenIsQuoted(rows, low, high - 1);
      var at: seq<nat> :| QuotedAt(rows, Spoken(rows[low..high - 1]), low, high - 1, at);
      SpokenStep(rows, low, high);
      QuoteMore(rows, Spoken(rows[low..high - 1]), low, high, at);
      if Speaks(rows[high - 1]) {
        assert QuotedAt(rows, Spoken(rows[low..high]), low, high, at + [high - 1]);
      } else {
        assert Spoken(rows[low..high - 1]) + [] == Spoken(rows[low..high - 1]);
        assert QuotedAt(rows, Spoken(rows[low..high]), low, high, at);
      }
    }
  }

  lemma NothingQuoted(rows: seq<Row>, low: nat)
    requires low <= |rows|
    ensures Spoken(rows[low..low]) == [] && QuotedAt(rows, [], low, low, [])
  {
    assert rows[low..low] == [];
  }

  lemma SpokenStep(rows: seq<Row>, low: nat, high: nat)
    requires low < high <= |rows|
    ensures Spoken(rows[low..high])
            == Spoken(rows[low..high - 1]) + if Speaks(rows[high - 1]) then [rows[high - 1]] else []
  {
    hide Speaks;
    assert rows[low..high][..high - 1 - low] == rows[low..high - 1];
  }

  lemma QuoteMore(rows: seq<Row>, shown: seq<Row>, low: nat, high: nat, at: seq<nat>)
    requires low < high <= |rows| && QuotedAt(rows, shown, low, high - 1, at)
    ensures if Speaks(rows[high - 1]) then QuotedAt(rows, shown + [rows[high - 1]], low, high, at + [high - 1])
            else QuotedAt(rows, shown, low, high, at)
  {
    hide Trim;
    assert forall i :: 0 <= i < |at| ==> at[i] in at;
  }

  /** The row at `reply` is the last reply above the turn. */
  ghost predicate IsLastReply(rows: seq<Row>, pivot: nat, reply: nat)
    requires pivot <= |rows|
  {
    reply < pivot && rows[reply].role == Assistant && forall k :: reply < k < pivot ==> rows[k].role != Assistant
  }

  /** The session can be cut back to that reply: it is the session's, and its tail was recorded. */
  ghost predicate CanForkAt(rows: seq<Row>, session: Option<nat>, pivot: nat, reply: nat)
    requires pivot <= |rows|
  {
    IsLastReply(rows, pivot, reply) && session.Some? && rows[reply].tail.Some? && rows[reply].session == session
  }

  /** The first of the rows above the turn that are still quoted. */
  function QuotedFrom(pivot: nat): nat {
    if pivot <= 200 then 0 else pivot - 200
  }

  /** A slash and a letter, after white space only. */
  ghost predicate IsCommand(text: string) {
    exists i :: 0 <= i < |text| - 1 && (forall k :: 0 <= k < i ==> IsSpace(text[k])) && text[i] == '/'
                && ('A' <= text[i + 1] <= 'Z' || 'a' <= text[i + 1] <= 'z')
  }

  /**
   * What a plan promises. A turn that need not cut goes on with the session. One that must is put
   * behind the last reply if the session can be cut there, with all that was said since in front
   * of it, or nothing before a slash command; and otherwise, or when that is refused, starts
   * afresh with all that was said in the latest two hundred rows in front of it.
   */
  ghost predicate IsPlanFor(rows: seq<Row>, session: Option<nat>, pivot: nat, regenerate: bool, plan: Plan)
    requires pivot < |rows|
  {
    var low := QuotedFrom(pivot);
    if !regenerate && forall k :: 0 <= k < |rows| && rows[k].role == User ==> !rows[k].cutPending then
      plan == Plan(Attempt(Continue(session), []), None)
    else
      && (forall reply: nat :: CanForkAt(rows, session, pivot, reply) ==>
            && plan.first.kind == Fork(session.value, rows[reply].tail.value)
            && (if IsCommand(rows[pivot].text) then plan.first.shown == []
                else Quotes(rows, plan.first.shown, if reply < low then low else reply + 1, pivot))
            && plan.fallback.Some? && plan.fallback.value.kind == Fresh
            && Quotes(rows, plan.fallback.value.shown, low, pivot))
      && ((forall reply: nat :: !CanForkAt(rows, session, pivot, reply)) ==>
            && plan.first.kind == Fresh && Quotes(rows, plan.first.shown, low, pivot) && plan.fallback == None)
  }

  lemma CommandIsCommand(text: string)
    ensures IsSlashCommand(text) <==> IsCommand(text)
  {
    hide IsSlashCommand, IsCommand;
    if IsSlashCommand(text) {
      CommandStarts(text);
    }
    if IsCommand(text) {
      CommandFound(text);
    }
  }

  lemma CommandStarts(text: string)
    requires IsSlashCommand(text)
    ensures IsCommand(text)
  {
    hide TrimStart, IsSpace;
    TrimStartStops(text);
    var start := |text| - |TrimStart(text)|;
    assert text[start] == '/' && start < |text| - 1;
  }

  lemma CommandFound(text: string)
    requires IsCommand(text)
    ensures IsSlashCommand(text)
  {
    hide TrimStart, IsSpace;
    TrimStartStops(text);
    var start := |text| - |TrimStart(text)|;
    var i :| 0 <= i < |text| - 1 && (forall k :: 0 <= k < i ==> IsSpace(text[k])) && text[i] == '/'
             && ('A' <= text[i + 1] <= 'Z' || 'a' <= text[i + 1] <= 'z');
    SlashIsNoSpace();
    assert start == i;
  }

  lemma SlashIsNoSpace()
    ensures !IsSpace('/')
  {
  }

  /** The latest rows above the turn, and what is unanswered of them. */
  lemma KeptRows(rows: seq<Row>, pivot: nat)
    requires pivot < |rows|
    ensures var low := QuotedFrom(pivot); low <= pivot && Latest(rows[..pivot], KEPT_HISTORY_ROWS) == rows[low..pivot]
  {
  }

  lemma UnansweredRows(rows: seq<Row>, pivot: nat, reply: nat)
    requires pivot <= |rows| && IsLastReply(rows, pivot, reply)
    ensures var low := QuotedFrom(pivot);
            UnansweredTail(rows[low..pivot]) == rows[(if reply < low then low else reply + 1)..pivot]
  {
    hide UnansweredTail;
    var low := QuotedFrom(pivot);
    var kept, from := rows[low..pivot], if reply < low then low else reply + 1;
    TailIsSuffix(kept, from - low);
    assert kept[from - low..] == rows[from..pivot];
  }

  lemma LastReplyIs(rows: seq<Row>, pivot: nat)
    requires pivot <= |rows|
    ensures var last := LastAssistant(rows[..pivot]);
            forall reply: nat :: IsLastReply(rows, pivot, reply) <==> last == Some(reply)
  {
    hide LastAssistant;
    var last := LastAssistant(rows[..pivot]);
    assert last.Some? ==> IsLastReply(rows, pivot, last.value);
    assert forall k :: 0 <= k < pivot ==> rows[..pivot][k] == rows[k];
  }

  /** Every plan keeps the promise. */
  lemma PlanMeans(rows: seq<Row>, session: Option<nat>, pivot: nat, regenerate: bool)
    requires pivot < |rows|
    ensures IsPlanFor(rows, session, pivot, regenerate, PlanTurn(rows, session, pivot, regenerate))
  {
    hide Quotes, IsSlashCommand, IsCommand, Spoken, UnansweredTail, LastAssistant, Latest, IsLastReply;
    var low := QuotedFrom(pivot);
    KeptRows(rows, pivot);
    SpokenIsQuoted(rows, low, pivot);
    CommandIsCommand(rows[pivot].text);
    LastReplyIs(rows, pivot);
    SpokenNothing();
    var last := LastAssistant(rows[..pivot]);
    if last.Some? {
      assert IsLastReply(rows, pivot, last.value);
      UnansweredRows(rows, pivot, last.value);
      SpokenIsQuoted(rows, if last.value < low then low else last.value + 1, pivot);
    }
  }

  lemma SpokenNothing()
    ensures Spoken([]) == []
  {
  }
}
