/**
 * The statements that change and read a conversation's message rows: edit, cut back, record a
 * turn's join, and plan a turn. Rows are kept in sequence order.
 */
module SessionStore {
  import opened SessionRuns
  import opened TurnPlan
  import opened Wrappers

  datatype BranchError = NotFound | TurnRunning | Rewinding | RewindFailed

  datatype Restore = NotAsked | Restored | RestoreFailed

  class Messages {
    var rows: seq<Row>

    constructor (rows: seq<Row>)
      ensures this.rows == rows
    {
      this.rows := rows;
    }

    /** The row with this id, if it is a user message. */
    method LoadOwnUserMessage(id: nat) returns (k: Option<nat>)
      ensures k.Some? ==> k.value < |rows| && rows[k.value].id == id && rows[k.value].role == User
      ensures k.None? ==> forall i :: 0 <= i < |rows| && rows[i].id == id ==> rows[i].role != User
    {
      var i := 0;
      while i < |rows|
        invariant 0 <= i <= |rows|
        invariant forall j :: 0 <= j < i && rows[j].id == id ==> rows[j].role != User
      {
        if rows[i].id == id && rows[i].role == User {
          return Some(i);
        }
        i := i + 1;
      }
      return None;
    }

    /** What stands in the way of a cut: a running turn, a rewind, or files that cannot be restored. */
    method PrepareBranch(live: bool, rewinding: bool, restore: Restore) returns (error: Option<BranchError>)
      ensures error == if live then Some(TurnRunning) else if rewinding then Some(Rewinding)
                       else if restore == RestoreFailed then Some(RewindFailed) else None
    {
      if live {
        return Some(TurnRunning);
      }
      if rewinding {
        return Some(Rewinding);
      }
      if restore == RestoreFailed {
        return Some(RewindFailed);
      }
      return None;
    }

    /** Marks the row and deletes every row after it, as one transaction. */
    method CutTo(k: nat, text: Option<string>)
      requires k < |rows|
      modifies this
      ensures rows == old(rows)[..k] + [old(rows)[k].(text := text.GetOr(old(rows)[k].text), cutPending := true)]
    {
      var row := rows[k].(cutPending := true);
      if text.Some? {
        row := row.(text := text.value);
      }
      rows := rows[k := row];
      rows := rows[..k + 1];
    }

    /** The page up to a user message, with a new text and a mark in that row; refused, the page as it was. */
    method EditUserMessage(id: nat, text: string, live: bool, rewinding: bool, restore: Restore)
      returns (error: Option<BranchError>)
      modifies this
      ensures error.Some? ==> rows == old(rows)
      ensures error.None? ==>
                && !live && !rewinding && restore != RestoreFailed
                && exists k :: 0 <= k < |old(rows)| && old(rows)[k].id == id && old(rows)[k].role == User
                               && rows == old(rows)[..k] + [old(rows)[k].(text := text, cutPending := true)]
      ensures error == Some(NotFound) <==>
              forall i :: 0 <= i < |old(rows)| && old(rows)[i].id == id ==> old(rows)[i].role != User
    {
      var k := LoadOwnUserMessage(id);
      if k.None? {
        return Some(NotFound);
      }
      error := PrepareBranch(live, rewinding, restore);
      if error.None? {
        CutTo(k.value, Some(text));
      }
    }

    /** The same with the text kept. */
    method TruncateAfterMessage(id: nat, live: bool, rewinding: bool, restore: Restore)
      returns (error: Option<BranchError>)
      modifies this
      ensures error.Some? ==> rows == old(rows)
      ensures error.None? ==>
                && !live && !rewinding && restore != RestoreFailed
                && exists k :: 0 <= k < |old(rows)| && old(rows)[k].id == id && old(rows)[k].role == User
                               && rows == old(rows)[..k] + [old(rows)[k].(cutPending := true)]
      ensures error == Some(NotFound) <==>
              forall i :: 0 <= i < |old(rows)| && old(rows)[i].id == id ==> old(rows)[i].role != User
    {
      var k := LoadOwnUserMessage(id);
      if k.None? {
        return Some(NotFound);
      }
      error := PrepareBranch(live, rewinding, restore);
      if error.None? {
        CutTo(k.value, None);
      }
    }

    /** Stamps a turn on its user row, then clears the pending cuts up to that row. */
    method RecordTurnJoin(k: nat, turn: nat)
      requires k < |rows| && rows[k].role == User
      modifies this
      ensures rows == RecordJoin(old(rows), k, turn)
    {
      rows := rows[k := rows[k].(join := Some(turn))];
      var i := 0;
      while i <= k
        invariant 0 <= i <= k + 1
        invariant |rows| == |old(rows)|
        invariant forall j :: 0 <= j < i ==> rows[j] == RecordJoin(old(rows), k, turn)[j]
        invariant forall j :: i <= j < |rows| ==>
                    rows[j] == if j == k then old(rows)[j].(join := Some(turn)) else old(rows)[j]
      {
        if rows[i].role == User && rows[i].cutPending {
          rows := rows[i := rows[i].(cutPending := false)];
        }
        i := i + 1;
      }
    }

    method HasPendingCut() returns (pending: bool)
      ensures pending == AnyPending(rows)
    {
      var i := 0;
      while i < |rows|
        invariant 0 <= i <= |rows|
        invariant forall j :: 0 <= j < i ==> !(rows[j].role == User && rows[j].cutPending)
      {
        if rows[i].role == User && rows[i].cutPending {
          return true;
        }
        i := i + 1;
      }
      return false;
    }

    /** The rows above `pivot`, newest first up to the limit, then reversed. */
    method KeptHistory(pivot: nat) returns (kept: seq<Row>)
      requires pivot <= |rows|
      ensures kept == Latest(rows[..pivot], KEPT_HISTORY_ROWS)
    {
      var newest: seq<Row> := [];
      var i: int := pivot;
      while i > 0 && |newest| < KEPT_HISTORY_ROWS
        invariant 0 <= i <= pivot && |newest| == pivot - i <= KEPT_HISTORY_ROWS
        invariant forall j :: 0 <= j < |newest| ==> newest[j] == rows[pivot - 1 - j]
      {
        newest := newest + [rows[i - 1]];
        i := i - 1;
      }
      kept := [];
      var j := |newest|;
      while j > 0
        invariant 0 <= j <= |newest| && |kept| == |newest| - j
        invariant forall m :: 0 <= m < |kept| ==> kept[m] == newest[|newest| - 1 - m]
      {
        kept := kept + [newest[j - 1]];
        j := j - 1;
      }
      assert kept == rows[i..pivot];
    }

    /** The plan of a turn; an error when a turn that must cut has no user row to answer. */
    method PlanTheTurn(session: Option<nat>, pivot: Option<nat>, regenerate: bool)
      returns (plan: Result<Plan, string>)
      requires pivot.Some? ==> pivot.value < |rows|
      ensures var cut := regenerate || (pivot.Some? && AnyPending(rows));
              && (plan.Err? <==> cut && (pivot.None? || rows[pivot.value].role != User))
              && (plan.Ok? && pivot.Some? ==> plan.value == PlanTurn(rows, session, pivot.value, regenerate))
              && (plan.Ok? && pivot.Some? ==> IsPlanFor(rows, session, pivot.value, regenerate, plan.value))
              && (plan.Ok? && pivot.None? ==> plan.value.first.kind == Continue(session))
    {
      hide IsPlanFor;
      if pivot.Some? {
        PlanMeans(rows, session, pivot.value, regenerate);
      }
      var pending := HasPendingCut();
      var cut := regenerate || (pivot.Some? && pending);
      if !cut {
        return Ok(ResolveTurnResume(false, session, None, [], []));
      }
      if pivot.None? || rows[pivot.value].role != User {
        return Err(if regenerate then "There is no message to regenerate a reply to."
                   else "The message to answer was not found.");
      }
      var before := rows[..pivot.value];
      var last := LastAssistant(before);
      var previous := if last.Some? then Some(before[last.value]) else None;
      var kept := KeptHistory(pivot.value);
      var unanswered := FindUnanswered(kept);
      if IsSlashCommand(rows[pivot.value].text) {
        unanswered := [];
      }
      return Ok(ResolveTurnResume(true, session, previous, kept, unanswered));
    }
  }
}
