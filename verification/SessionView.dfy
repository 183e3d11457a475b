/**
 * The other half of what a session shows: not only nothing but the page, but all of it that was
 * ever taken up, as long as no write and no cut is lost.
 */
module SessionView {
  import opened SessionRuns
  import opened Text
  import opened TurnPlan
  import opened Wrappers

  // ----- What is seen -----

  /** A user row that some turn answers, or a reply whose turn is recorded. */
  ghost predicate TakenUp(c: Conversation, k: nat)
    requires k < |c.rows|
  {
    var row := c.rows[k];
    if row.role == User then row.join.Some? && row.join.value < |c.turns| && c.turns[row.join.value].row == row.id
    else row.tail.Some?
  }

  /** Some turn on the way to `t` showed the row as it now reads, or is the turn that replied with it. */
  ghost predicate InSession(c: Conversation, t: nat, k: nat)
    requires t < |c.turns| && k < |c.rows|
  {
    || (exists u :: u in Chain(c.turns, t) && ShowsRow(c, u, k))
    || (c.rows[k].role == Assistant && c.rows[k].tail.Some? && c.rows[k].tail.value in Chain(c.turns, t))
  }

  ghost predicate ShowsRow(c: Conversation, u: nat, k: nat)
    requires k < |c.rows|
  {
    u < |c.turns| && Shown(c.rows[k].id, c.rows[k].text) in c.turns[u].shows
  }

  /** The attempt has the row in front of its prompt, as it now reads. */
  ghost predicate InFront(c: Conversation, attempt: Attempt, k: nat)
    requires k < |c.rows|
  {
    exists row :: row in attempt.shown && row.id == c.rows[k].id && row.text == c.rows[k].text
  }

  /** All that was said and taken up above `upto` is in the session that ends with `t`. */
  ghost predicate HoldsAll(c: Conversation, t: nat, upto: nat) {
    && t < |c.turns| && upto <= |c.rows|
    && forall k: nat :: k < upto && Speaks(c.rows[k]) && TakenUp(c, k) ==> InSession(c, t, k)
  }

  /** When the attempt starts, all that was said and taken up above the turn is resumed or in front of the prompt. */
  ghost predicate SeesThePage(c: Conversation, attempt: Attempt, pivot: nat)
    requires pivot <= |c.rows|
  {
    var from := ResumePoint(c, attempt.kind);
    forall k: nat :: k < pivot && Speaks(c.rows[k]) && TakenUp(c, k) ==>
      InFront(c, attempt, k) || (from.Some? && from.value < |c.turns| && InSession(c, from.value, k))
  }

  // ----- What is kept -----

  /** An attempt that does not go on with the session as it is sees the page of up to two hundred rows. */
  ghost predicate Covers(c: Conversation, attempt: Attempt, pivot: nat)
    requires pivot < |c.rows|
  {
    match attempt.kind
    case Continue(_) => true
    case Fresh => pivot <= 200 ==> SeesThePage(c, attempt, pivot)
    case Fork(_, _) => pivot <= 200 && !IsCommand(c.rows[pivot].text) ==> SeesThePage(c, attempt, pivot)
  }

  ghost predicate HeadHolds(c: Conversation) {
    c.session.Some? && !AnyPending(c.rows) && !(c.live.Some? && c.live.value.phase == Refused(true)) ==>
      c.session.value in c.heads && HoldsAll(c, Head(c), |c.rows|)
  }

  ghost predicate TailHolds(c: Conversation, k: nat)
    requires k < |c.rows|
  {
    c.rows[k].role == Assistant && c.rows[k].tail.Some? ==> HoldsAll(c, c.rows[k].tail.value, k + 1)
  }

  ghost predicate LiveHolds(c: Conversation, live: Live) {
    && live.pivot == |c.rows| - 1
    && match live.phase
       case Planned =>
         && Covers(c, live.plan.first, live.pivot)
         && (live.plan.fallback.Some? ==> Covers(c, live.plan.fallback.value, live.pivot))
       case Refused(_) => live.plan.fallback.Some? ==> Covers(c, live.plan.fallback.value, live.pivot)
       case Started(t) => !AnyPending(c.rows) && c.session.Some? && c.session.value in c.heads && Head(c) == t
  }

  /** What every step keeps that loses nothing. */
  ghost predicate Full(c: Conversation) {
    && Inv(c)
    && (c.session.None? ==> c.turns == [])
    && HeadHolds(c)
    && (forall k: nat :: k < |c.rows| ==> TailHolds(c, k))
    && (c.live.Some? ==> LiveHolds(c, c.live.value))
  }

  /**
   * A step that loses nothing: its writes are saved and no cut is stranded; a regenerate is for the
   * last row, as it is once the page was cut back to it; a cut session's turn is no slash command
   * and a fresh one's history is not too long to be quoted.
   */
  ghost predicate Careful(c: Conversation, e: Event)
    requires Enabled(c, e)
  {
    && !Strands(c, e)
    && (e.Regenerate? ==> |c.rows| > 0 && c.rows[|c.rows| - 1].role == User)
    && (Starting(c, e).Some? ==>
          && e.saves == ALL_SAVED
          && c.live.value.pivot < |c.rows|
          && (!Starting(c, e).value.kind.Continue? ==> c.live.value.pivot <= 200)
          && (Starting(c, e).value.kind.Fork? ==> !IsCommand(c.rows[c.live.value.pivot].text)))
  }

  // ----- What stays seen -----

  /** Turns are only added, and the rows up to some point are as they were. */
  ghost predicate SameRows(c: Conversation, c': Conversation, upto: nat) {
    && |c.turns| <= |c'.turns| && c'.turns[..|c.turns|] == c.turns
    && upto <= |c.rows| && upto <= |c'.rows|
    && forall k: nat :: k < upto ==>
         && c'.rows[k].id == c.rows[k].id && c'.rows[k].text == c.rows[k].text
         && c'.rows[k].role == c.rows[k].role && c'.rows[k].tail == c.rows[k].tail
         && (TakenUp(c', k) ==> TakenUp(c, k))
  }

  lemma SessionKept(c: Conversation, c': Conversation, t: nat, k: nat)
    requires SameRows(c, c', k + 1) && t < |c.turns| && InSession(c, t, k)
    ensures InSession(c', t, k)
  {
    assert c'.turns == c.turns + c'.turns[|c.turns|..];
    ChainStable(c.turns, c'.turns[|c.turns|..], t);
    if u :| u in Chain(c.turns, t) && ShowsRow(c, u, k) {
      assert c'.turns[u] == c.turns[u];
      assert ShowsRow(c', u, k);
    }
  }

  lemma HoldsKept(c: Conversation, c': Conversation, t: nat, upto: nat)
    requires SameRows(c, c', upto) && HoldsAll(c, t, upto)
    ensures HoldsAll(c', t, upto)
  {
    hide InSession, TakenUp;
    forall k: nat | k < upto && Speaks(c'.rows[k]) && TakenUp(c', k)
      ensures InSession(c', t, k)
    {
      assert Speaks(c.rows[k]);
      SessionKept(c, c', t, k);
    }
  }

  lemma TailsKeepHolding(c: Conversation, c': Conversation, n: nat)
    requires SameRows(c, c', n) && forall k: nat :: k < n ==> TailHolds(c, k)
    ensures forall k: nat :: k < n ==> TailHolds(c', k)
  {
    hide HoldsAll, TakenUp;
    forall k: nat | k < n && c'.rows[k].role == Assistant && c'.rows[k].tail.Some?
      ensures HoldsAll(c', c'.rows[k].tail.value, k + 1)
    {
      assert TailHolds(c, k);
      HoldsKept(c, c', c.rows[k].tail.value, k + 1);
    }
  }

  lemma CoversKept(c: Conversation, c': Conversation, attempt: Attempt, pivot: nat)
    requires pivot < |c.rows| && pivot < |c'.rows| && SameRows(c, c', pivot) && c'.heads == c.heads
    requires c'.rows[pivot].text == c.rows[pivot].text
    requires Covers(c, attempt, pivot)
    ensures Covers(c', attempt, pivot)
  {
    hide InSession, TakenUp, IsCommand;
    if SeesThePage(c, attempt, pivot) {
      var from := ResumePoint(c, attempt.kind);
      forall k: nat | k < pivot && Speaks(c'.rows[k]) && TakenUp(c', k)
        ensures InFront(c', attempt, k) || (from.Some? && from.value < |c'.turns| && InSession(c', from.value, k))
      {
        assert Speaks(c.rows[k]);
        if !InFront(c, attempt, k) {
          SessionKept(c, c', from.value, k);
        }
      }
    }
  }

  // ----- Planning -----

  lemma QuotesAreInFront(c: Conversation, attempt: Attempt, low: nat, high: nat, k: nat)
    requires high <= |c.rows| && Quotes(c.rows, attempt.shown, low, high)
    requires low <= k < high && Speaks(c.rows[k])
    ensures InFront(c, attempt, k)
  {
    hide Trim;
    var at: seq<nat> :| QuotedAt(c.rows, attempt.shown, low, high, at);
    assert k in at;
    var i :| 0 <= i < |at| && at[i] == k;
    assert attempt.shown[i] in attempt.shown;
  }

  /** The attempts a plan makes cover the page. */
  lemma PlanCovers(c: Conversation, pivot: nat, regenerate: bool)
    requires pivot < |c.rows| && forall k: nat :: k < pivot ==> TailHolds(c, k)
    ensures var plan := PlanTurn(c.rows, c.session, pivot, regenerate);
            Covers(c, plan.first, pivot) && (plan.fallback.Some? ==> Covers(c, plan.fallback.value, pivot))
  {
    hide PlanTurn, Quotes, IsCommand, InFront, InSession, TakenUp, HoldsAll, SeesThePage;
    PlanMeans(c.rows, c.session, pivot, regenerate);
    var plan := PlanTurn(c.rows, c.session, pivot, regenerate);
    if pivot <= 200 && !plan.first.kind.Continue? {
      if reply: nat :| CanForkAt(c.rows, c.session, pivot, reply) {
        ForkCovers(c, plan.first, pivot, reply);
        FreshCovers(c, plan.fallback.value, pivot);
      } else if plan.first.kind == Fresh {
        FreshCovers(c, plan.first, pivot);
      }
    }
  }

  lemma FreshCovers(c: Conversation, attempt: Attempt, pivot: nat)
    requires pivot < |c.rows| && Quotes(c.rows, attempt.shown, 0, pivot) && attempt.kind == Fresh
    ensures Covers(c, attempt, pivot)
  {
    hide Quotes, InFront, InSession, TakenUp;
    forall k: nat | k < pivot && Speaks(c.rows[k])
      ensures InFront(c, attempt, k)
    {
      QuotesAreInFront(c, attempt, 0, pivot, k);
    }
  }

  lemma ForkCovers(c: Conversation, attempt: Attempt, pivot: nat, reply: nat)
    requires pivot < |c.rows| && pivot <= 200 && CanForkAt(c.rows, c.session, pivot, reply)
    requires attempt.kind == Fork(c.session.value, c.rows[reply].tail.value)
    requires IsCommand(c.rows[pivot].text) || Quotes(c.rows, attempt.shown, reply + 1, pivot)
    requires TailHolds(c, reply)
    ensures Covers(c, attempt, pivot)
  {
    hide Quotes, IsCommand, InFront, InSession, TakenUp, Speaks, ShowsRow;
    if !IsCommand(c.rows[pivot].text) {
      forall k: nat | k < pivot && Speaks(c.rows[k]) && TakenUp(c, k)
        ensures InFront(c, attempt, k) || InSession(c, c.rows[reply].tail.value, k)
      {
        if k > reply {
          QuotesAreInFront(c, attempt, reply + 1, pivot, k);
        }
      }
    }
  }

  // ----- Steps -----

  /** One row more, which nothing has taken up yet unless it is a recorded reply. */
  lemma AppendFull(c: Conversation, c': Conversation, row: Row)
    requires c'.rows == c.rows + [row] && c'.turns == c.turns
    ensures SameRows(c, c', |c.rows|)
  {
  }

  lemma SendFull(c: Conversation, text: string)
    requires Full(c) && Enabled(c, Send(text))
    ensures Full(Apply(c, Send(text)))
  {
    hide Inv, PlanTurn, Trim, AnyPending, Covers, HoldsAll, SameRows;
    StepOk(c, Send(text));
    var c' := Apply(c, Send(text));
    AppendFull(c, c', c'.rows[|c.rows|]);
    PendingAppend(c.rows, c'.rows[|c.rows|]);
    TailsKeepHolding(c, c', |c.rows|);
    PlanCovers(c', |c.rows|, false);
    if c.session.Some? && !AnyPending(c.rows) {
      HeadMore(c, c', c'.rows[|c.rows|]);
    }
  }

  /** A new row that is not taken up leaves the head holding all. */
  lemma HeadMore(c: Conversation, c': Conversation, row: Row)
    requires c'.rows == c.rows + [row] && c'.turns == c.turns && c'.heads == c.heads && c'.session == c.session
    requires c.session.Some? && c.session.value in c.heads && HoldsAll(c, Head(c), |c.rows|)
    requires !TakenUp(c', |c.rows|)
    ensures HoldsAll(c', Head(c'), |c'.rows|)
  {
    hide TakenUp, InSession;
    AppendFull(c, c', row);
    HoldsKept(c, c', Head(c), |c.rows|);
  }

  lemma RegenerateFull(c: Conversation)
    requires Full(c) && Enabled(c, Regenerate) && Careful(c, Regenerate)
    ensures Full(Apply(c, Regenerate))
  {
    hide Inv, PlanTurn, AnyPending, Covers, HoldsAll, TakenUp, SameRows;
    StepOk(c, Regenerate);
    var c' := Apply(c, Regenerate);
    LiveOnly(c, c');
    TailsKeepHolding(c, c', |c.rows|);
    PlanCovers(c', LastUser(c.rows).value, true);
    if c.session.Some? && !AnyPending(c.rows) {
      HoldsKept(c, c', Head(c), |c.rows|);
    }
  }

  lemma LiveOnly(c: Conversation, c': Conversation)
    requires c'.rows == c.rows && c'.turns == c.turns
    ensures SameRows(c, c', |c.rows|)
  {
  }

  lemma CutFull(c: Conversation, k: nat, text: string)
    requires Full(c) && c.live.None? && k < |c.rows| && c.rows[k].role == User
    requires Inv(CutBack(c, k, text))
    ensures Full(CutBack(c, k, text))
  {
    hide Inv, HoldsAll;
    var c' := CutBack(c, k, text);
    assert SameRows(c, c', k);
    TailsKeepHolding(c, c', k);
    assert c'.rows[k].cutPending;
  }

  lemma RefuseFull(c: Conversation, announced: bool)
    requires Full(c) && Enabled(c, Refuse(announced))
    ensures Full(Apply(c, Refuse(announced)))
  {
    hide Inv, AnyPending, Covers, HoldsAll;
    StepOk(c, Refuse(announced));
    var c' := Apply(c, Refuse(announced));
    RefusedRows(c, announced);
    TailsKeepHolding(c, c', |c.rows|);
    CoversKept(c, c', c.live.value.plan.fallback.value, c.live.value.pivot);
    if c.session.Some? && !AnyPending(c.rows) {
      HoldsKept(c, c', Head(c), |c.rows|);
    }
  }

  lemma RefusedRows(c: Conversation, announced: bool)
    requires Enabled(c, Refuse(announced))
    ensures var c' := Apply(c, Refuse(announced));
            SameRows(c, c', |c.rows|) && SameRows(c, c', c.live.value.pivot) && c'.heads == c.heads
            && c'.rows[c.live.value.pivot].text == c.rows[c.live.value.pivot].text
  {
    RecordJoinSame(c.rows, c.live.value.pivot, |c.turns|);
  }

  lemma FailFull(c: Conversation, reply: Option<string>)
    requires Full(c) && Enabled(c, FailToStart(reply)) && !Strands(c, FailToStart(reply))
    ensures Full(Apply(c, FailToStart(reply)))
  {
    hide Inv, AnyPending, Covers, HoldsAll, SameRows;
    StepOk(c, FailToStart(reply));
    var c' := Apply(c, FailToStart(reply));
    if reply.Some? {
      AppendFull(c, c', c'.rows[|c.rows|]);
      PendingAppend(c.rows, c'.rows[|c.rows|]);
      TailsKeepHolding(c, c', |c.rows|);
      if c.session.Some? && !AnyPending(c.rows) {
        HeadMore(c, c', c'.rows[|c.rows|]);
      }
    } else {
      LiveOnly(c, c');
      TailsKeepHolding(c, c', |c.rows|);
      if c.session.Some? && !AnyPending(c.rows) {
        HoldsKept(c, c', Head(c), |c.rows|);
      }
    }
  }

  lemma DieFull(c: Conversation)
    requires Full(c) && Enabled(c, Die)
    ensures Full(Apply(c, Die))
  {
    hide Inv, AnyPending, Covers, HoldsAll, SameRows;
    StepOk(c, Die);
    var c' := Apply(c, Die);
    LiveOnly(c, c');
    TailsKeepHolding(c, c', |c.rows|);
    HoldsKept(c, c', Head(c), |c.rows|);
  }

  lemma ReplyFull(c: Conversation, text: string, withTail: bool)
    requires Full(c) && Enabled(c, SaveReply(text, withTail))
    ensures Full(Apply(c, SaveReply(text, withTail)))
  {
    hide Inv, AnyPending, Covers, SameRows;
    StepOk(c, SaveReply(text, withTail));
    var (c', t) := (Apply(c, SaveReply(text, withTail)), c.live.value.phase.turn);
    AppendFull(c, c', c'.rows[|c.rows|]);
    PendingAppend(c.rows, c'.rows[|c.rows|]);
    TailsKeepHolding(c, c', |c.rows|);
    HoldsKept(c, c', t, |c.rows|);
    assert t in Chain(c'.turns, t);
    assert HoldsAll(c', t, |c'.rows|);
  }

  // ----- Starting -----

  lemma StartKeeps(c: Conversation, attempt: Attempt)
    requires Full(c) && c.live.Some?
    ensures var c' := Begin(c, attempt, ALL_SAVED);
            |c'.rows| == |c.rows| && SameRows(c, c', c.live.value.pivot)
            && c'.rows[c.live.value.pivot].id == c.rows[c.live.value.pivot].id
            && c'.rows[c.live.value.pivot].text == c.rows[c.live.value.pivot].text
            && c'.rows[c.live.value.pivot].role == c.rows[c.live.value.pivot].role
            && c'.rows[c.live.value.pivot].tail == c.rows[c.live.value.pivot].tail
  {
    hide AttemptOk, TurnsOk, TailsOk, HeadHolds, TailHolds, Covers, HeadClean;
    RecordJoinSame(c.rows, c.live.value.pivot, |c.turns|);
  }

  /** What an attempt that starts sees in a conversation that has lost nothing: all of the page. */
  lemma StartSeesAll(c: Conversation, e: Event)
    requires Full(c) && Enabled(c, e) && Careful(c, e) && Starting(c, e).Some?
    ensures c.live.Some? && c.live.value.pivot < |c.rows|
    ensures SeesThePage(c, Starting(c, e).value, c.live.value.pivot)
  {
    hide TurnsOk, TailsOk, RowsOk, HeadClean, InFront, InSession, IsCommand, AnyPending, ChainOk;
    var attempt := Starting(c, e).value;
    if attempt.kind.Continue? {
      ContinueSeesAll(c, attempt);
    }
  }

  lemma ContinueSeesAll(c: Conversation, attempt: Attempt)
    requires c.live.Some? && c.live.value.pivot < |c.rows| && c.live.value.phase == Planned
    requires attempt.kind == Continue(c.session) && !AnyPending(c.rows) && HeadHolds(c)
    requires c.session.None? ==> c.turns == []
    requires forall k: nat :: k < |c.rows| ==> TailHolds(c, k)
    ensures SeesThePage(c, attempt, c.live.value.pivot)
  {
    hide AnyPending, InFront, InSession;
    if c.session.None? {
      forall k: nat | k < c.live.value.pivot
        ensures !TakenUp(c, k)
      {
        assert TailHolds(c, k);
      }
    }
  }

  /** The turn that starts holds what it saw, and its own row. */
  lemma StartHoldsAll(c: Conversation, attempt: Attempt)
    requires Full(c) && c.live.Some? && SeesThePage(c, attempt, c.live.value.pivot)
    requires ResumePoint(c, attempt.kind).Some? ==> ResumePoint(c, attempt.kind).value < |c.turns|
    ensures HoldsAll(Begin(c, attempt, ALL_SAVED), |c.turns|, |c.rows|)
  {
    hide Inv, HeadHolds, TailHolds, Covers, TakenUp;
    var (c', t, pivot) := (Begin(c, attempt, ALL_SAVED), |c.turns|, c.live.value.pivot);
    StartKeeps(c, attempt);
    forall k: nat | k < |c.rows| && Speaks(c'.rows[k]) && TakenUp(c', k)
      ensures InSession(c', t, k)
    {
      if k == pivot {
        OwnRowShown(c, attempt);
      } else if InFront(c, attempt, k) {
        InFrontIsShown(c, attempt, k);
      } else {
        assert Speaks(c.rows[k]);
        ResumedIsSeen(c, attempt, k);
      }
    }
  }

  lemma OwnRowShown(c: Conversation, attempt: Attempt)
    requires c.live.Some? && c.live.value.pivot < |c.rows|
    ensures InSession(Begin(c, attempt, ALL_SAVED), |c.turns|, c.live.value.pivot)
  {
    var (c', t) := (Begin(c, attempt, ALL_SAVED), |c.turns|);
    assert t in Chain(c'.turns, t);
    assert c'.turns[t].shows[0] in c'.turns[t].shows;
    assert ShowsRow(c', t, c.live.value.pivot);
  }

  lemma InFrontIsShown(c: Conversation, attempt: Attempt, k: nat)
    requires c.live.Some? && c.live.value.pivot < |c.rows| && k < |c.rows| && InFront(c, attempt, k)
    ensures InSession(Begin(c, attempt, ALL_SAVED), |c.turns|, k)
  {
    var (c', t) := (Begin(c, attempt, ALL_SAVED), |c.turns|);
    var row :| row in attempt.shown && row.id == c.rows[k].id && row.text == c.rows[k].text;
    var i :| 0 <= i < |attempt.shown| && attempt.shown[i] == row;
    assert ShowRows(attempt.shown)[i] == Shown(row.id, row.text);
    assert c'.turns[t].shows[i + 1] in c'.turns[t].shows;
    assert t in Chain(c'.turns, t);
    assert ShowsRow(c', t, k);
  }

  lemma ResumedIsSeen(c: Conversation, attempt: Attempt, k: nat)
    requires c.live.Some? && c.live.value.pivot < |c.rows| && k < |c.rows|
    requires ResumePoint(c, attempt.kind).Some?
    requires ResumePoint(c, attempt.kind).value < |c.turns| && InSession(c, ResumePoint(c, attempt.kind).value, k)
    requires SameRows(c, Begin(c, attempt, ALL_SAVED), k + 1)
    ensures InSession(Begin(c, attempt, ALL_SAVED), |c.turns|, k)
  {
    hide TakenUp;
    var (c', t, from) := (Begin(c, attempt, ALL_SAVED), |c.turns|, ResumePoint(c, attempt.kind).value);
    SessionKept(c, c', from, k);
    assert c'.turns[t].parent == Some(from);
    assert Chain(c'.turns, t) == {t} + Chain(c'.turns, from);
    if u :| u in Chain(c'.turns, from) && ShowsRow(c', u, k) {
      assert u in Chain(c'.turns, t);
    }
  }

  lemma StartFull(c: Conversation, e: Event)
    requires Full(c) && Enabled(c, e) && Careful(c, e) && Starting(c, e).Some?
    ensures Full(Apply(c, e))
  {
    hide AttemptOk, TurnsOk, TailsOk, RowsOk, HeadClean, SeesThePage, HoldsAll, AnyPending, SameRows, LiveClean;
    var attempt := Starting(c, e).value;
    var c' := Apply(c, e);
    assert c' == Begin(c, attempt, ALL_SAVED);
    StepOk(c, e);
    StartSeesAll(c, e);
    ResumesInTree(c, e);
    StartHoldsAll(c, attempt);
    StartKeeps(c, attempt);
    JoinClears(c, c.live.value, |c.turns|);
    TailsKeepHolding(c, c', c.live.value.pivot);
    assert c'.rows[c.live.value.pivot].role == User;
  }

  lemma ResumesInTree(c: Conversation, e: Event)
    requires Full(c) && Enabled(c, e) && Starting(c, e).Some?
    ensures var from := ResumePoint(c, Starting(c, e).value.kind); from.Some? ==> from.value < |c.turns|
  {
    hide TurnsOk, TailsOk, RowsOk, HeadClean, HeadHolds, TailHolds, LiveHolds;
  }

  // ----- Whole conversations -----

  /** Every step that loses nothing keeps all of the page in sight. */
  lemma StepFull(c: Conversation, e: Event)
    requires Full(c) && Enabled(c, e) && Careful(c, e)
    ensures Full(Apply(c, e))
  {
    hide Full, Inv;
    match e
    case Send(text) => SendFull(c, text);
    case Regenerate => RegenerateFull(c);
    case Edit(k, text) =>
      FullIsInv(c);
      StepOk(c, e);
      CutFull(c, k, text);
    case Truncate(k) =>
      FullIsInv(c);
      StepOk(c, e);
      CutFull(c, k, c.rows[k].text);
    case StartFirst(_) => StartFull(c, e);
    case StartFallback(_) => StartFull(c, e);
    case Refuse(announced) => RefuseFull(c, announced);
    case FailToStart(reply) => FailFull(c, reply);
    case SaveReply(text, withTail) => ReplyFull(c, text, withTail);
    case Die => DieFull(c);
  }

  lemma FullIsInv(c: Conversation)
    requires Full(c)
    ensures Inv(c)
  {
  }

  ghost predicate AllCareful(c: Conversation, events: seq<Event>)
    requires AllEnabled(c, events)
    decreases |events|
  {
    events == [] || (Careful(c, events[0]) && AllCareful(Apply(c, events[0]), events[1..]))
  }

  /** Every attempt that starts along the way sees all of the page. */
  ghost predicate StartsSeeThePage(c: Conversation, events: seq<Event>)
    requires AllEnabled(c, events)
    decreases |events|
  {
    events == [] ||
    (&& (Starting(c, events[0]).Some? ==>
           && c.live.Some? && c.live.value.pivot < |c.rows|
           && SeesThePage(c, Starting(c, events[0]).value, c.live.value.pivot))
     && StartsSeeThePage(Apply(c, events[0]), events[1..]))
  }

  /**
   * In every conversation that loses nothing, whenever a turn starts, everything above it on the
   * page that was said and taken up, by the user or in a reply, is in what it resumes or in front
   * of its prompt, as it now reads.
   */
  lemma {:induction false} ConversationsSeeAllOfThePage(c: Conversation, events: seq<Event>)
    requires Full(c) && AllEnabled(c, events) && AllCareful(c, events)
    ensures StartsSeeThePage(c, events)
    decreases |events|
  {
    hide Full, Apply, Enabled, SeesThePage, Careful;
    if events != [] {
      if Starting(c, events[0]).Some? {
        StartSeesAll(c, events[0]);
      }
      StepFull(c, events[0]);
      ConversationsSeeAllOfThePage(Apply(c, events[0]), events[1..]);
    }
  }

  lemma NewConversationIsFull()
    ensures Full(NEW_CONVERSATION)
  {
    NewConversationOk();
  }

  /**
   * A turn that starts a session afresh, whatever was lost before, has all that was said in the
   * latest two hundred rows above it in front of its prompt.
   */
  lemma FreshStartQuotes(c: Conversation, pivot: nat, regenerate: bool, k: nat)
    requires pivot < |c.rows| && QuotedFrom(pivot) <= k < pivot && Speaks(c.rows[k])
    ensures var plan := PlanTurn(c.rows, c.session, pivot, regenerate);
            && (plan.first.kind == Fresh ==> InFront(c, plan.first, k))
            && (plan.fallback.Some? ==> InFront(c, plan.fallback.value, k))
  {
    hide PlanTurn, Quotes, InFront, IsCommand;
    PlanMeans(c.rows, c.session, pivot, regenerate);
    var plan := PlanTurn(c.rows, c.session, pivot, regenerate);
    if plan.first.kind == Fresh {
      QuotesAreInFront(c, plan.first, QuotedFrom(pivot), pivot, k);
    }
    if plan.fallback.Some? {
      QuotesAreInFront(c, plan.fallback.value, QuotedFrom(pivot), pivot, k);
    }
  }
}
