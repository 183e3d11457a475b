/**
 * The page and the session over whole conversations: sending, editing, regenerating, turns that
 * fail to start, are refused and fall back, or die before their reply is saved.
 *
 * The session store is an append-only tree of turns; each session has a head. A turn holds what
 * its prompt showed: its own row's text and the earlier rows placed in front of it.
 */
module SessionRuns {
  import opened Text
  import opened TurnPlan
  import opened Wrappers

  /** A row's text as a prompt carried it. */
  datatype Shown = Shown(row: nat, text: string)

  datatype Turn = Turn(row: nat, parent: Option<nat>, session: nat, shows: seq<Shown>)

  /**
   * How far the running turn has got: not started, refused and about to fall back (`cleared` when
   * the refused attempt wiped a pending cut), or under way.
   */
  datatype Phase = Planned | Refused(cleared: bool) | Started(turn: nat)

  datatype Live = Live(pivot: nat, plan: Plan, phase: Phase)

  /** `dropped` are the turns cut away so far; `rows` the page, `session` the one it resumes. */
  datatype Conversation = Conversation(
    rows: seq<Row>,
    nextRow: nat,
    session: Option<nat>,
    turns: seq<Turn>,
    heads: map<nat, nat>,
    live: Option<Live>,
    dropped: set<nat>)

  // ----- What a session shows -----

  /** The turns on the way from a turn back to the start of its session. */
  ghost function Chain(turns: seq<Turn>, t: nat): set<nat>
    requires t < |turns|
    decreases t
  {
    {t} + match turns[t].parent
          case Some(p) => if p < t then Chain(turns, p) else {}
          case None => {}
  }

  /** The page's rows, up to some point, have this row with this text. */
  ghost predicate OnPage(rows: seq<Row>, upto: nat, s: Shown)
    requires upto <= |rows|
  {
    exists k :: 0 <= k < upto && rows[k].id == s.row && rows[k].text == s.text
  }

  /** A turn shows only rows of the page above `upto`, as they read now, and no cut dropped it. */
  ghost predicate Current(c: Conversation, t: nat, upto: nat)
    requires t < |c.turns| && upto <= |c.rows|
  {
    && t !in c.dropped
    && (exists s :: s in c.turns[t].shows && s.row == c.turns[t].row)
    && (forall s :: s in c.turns[t].shows ==> OnPage(c.rows, upto, s))
  }

  ghost predicate ChainCurrent(c: Conversation, t: nat, upto: nat)
    requires upto <= |c.rows|
  {
    t < |c.turns| && forall u :: u in Chain(c.turns, t) ==> u < |c.turns| && Current(c, u, upto)
  }

  lemma {:induction false} ChainBounds(turns: seq<Turn>, t: nat)
    requires t < |turns|
    ensures forall u :: u in Chain(turns, t) ==> u <= t
    decreases t
  {
    if turns[t].parent.Some? && turns[t].parent.value < t {
      ChainBounds(turns, turns[t].parent.value);
    }
  }

  /** Turns are only added: a chain stays what it was. */
  lemma {:induction false} ChainStable(turns: seq<Turn>, more: seq<Turn>, t: nat)
    requires t < |turns|
    ensures Chain(turns + more, t) == Chain(turns, t)
    decreases t
  {
    if turns[t].parent.Some? && turns[t].parent.value < t {
      ChainStable(turns, more, turns[t].parent.value);
    }
  }

  /** The turn an attempt resumes after, if any. */
  ghost function ResumePoint(c: Conversation, kind: Kind): Option<nat> {
    match kind
    case Continue(Some(s)) => if s in c.heads then Some(c.heads[s]) else None
    case Fork(_, at) => Some(at)
    case _ => None
  }

  /**
   * What the model sees of the conversation so far when an attempt starts: the resumed turns and
   * the rows in front of the prompt all come from rows above the turn's own, as they read now.
   */
  ghost predicate SeesOnlyThePage(c: Conversation, attempt: Attempt, pivot: nat)
    requires pivot <= |c.rows|
  {
    && (ResumePoint(c, attempt.kind).Some? ==> ChainCurrent(c, ResumePoint(c, attempt.kind).value, pivot))
    && (forall row :: row in attempt.shown ==> OnPage(c.rows, pivot, Shown(row.id, row.text)))
  }

  // ----- Steps -----

  /** Which of the two background writes of a starting turn reach the database. */
  datatype Saves = Saves(session: bool, join: bool)

  datatype Event =
    | Send(text: string)
    | Regenerate
    | Edit(row: nat, text: string)
    | Truncate(row: nat)
    | StartFirst(saves: Saves)
    | Refuse(announced: bool)
    | StartFallback(saves: Saves)
    | FailToStart(reply: Option<string>)
    | SaveReply(text: string, withTail: bool)
    | Die

  /** The running turn answers a row of the page and, once started, is a turn of the tree. */
  predicate Shaped(c: Conversation) {
    c.live.Some? ==>
      && c.live.value.pivot < |c.rows|
      && (c.live.value.phase.Started? ==> c.live.value.phase.turn < |c.turns|)
  }

  predicate Enabled(c: Conversation, e: Event) {
    Shaped(c) &&
    match e
    case Send(text) => c.live.None? && Trim(text) != ""
    case Regenerate => c.live.None? && LastUser(c.rows).Some?
    case Edit(k, _) => c.live.None? && k < |c.rows| && c.rows[k].role == User
    case Truncate(k) => c.live.None? && k < |c.rows| && c.rows[k].role == User
    case StartFirst(_) => c.live.Some? && c.live.value.phase.Planned?
    case Refuse(_) => c.live.Some? && c.live.value.phase.Planned? && c.live.value.plan.fallback.Some?
    case StartFallback(_) => c.live.Some? && c.live.value.phase.Refused? && c.live.value.plan.fallback.Some?
    case FailToStart(_) => c.live.Some? && !c.live.value.phase.Started?
    case SaveReply(_, _) => c.live.Some? && c.live.value.phase.Started?
    case Die => c.live.Some? && c.live.value.phase.Started?
  }

  function LastUser(rows: seq<Row>): (r: Option<nat>)
    ensures r.Some? ==> r.value < |rows| && rows[r.value].role == User
    ensures r.Some? ==> forall k :: r.value < k < |rows| ==> rows[k].role != User
  {
    if rows == [] then None
    else if rows[|rows| - 1].role == User then Some(|rows| - 1)
    else
      var front := rows[..|rows| - 1];
      assert forall k :: 0 <= k < |front| ==> front[k] == rows[k];
      LastUser(front)
  }

  function Planning(c: Conversation, rows: seq<Row>, pivot: nat, regenerate: bool): Option<Live>
    requires pivot < |rows|
  {
    Some(Live(pivot, PlanTurn(rows, c.session, pivot, regenerate), Planned))
  }

  /** `recordTurnJoin`: stamps the turn on its row and clears every pending cut up to it. */
  function RecordJoin(rows: seq<Row>, pivot: nat, turn: nat): (r: seq<Row>)
    ensures |r| == |rows|
  {
    seq(|rows|, k requires 0 <= k < |rows| =>
      if k == pivot then rows[k].(join := Some(turn), cutPending := false)
      else if k < pivot && rows[k].role == User then rows[k].(cutPending := false)
      else rows[k])
  }

  function ShowRows(rows: seq<Row>): (r: seq<Shown>)
    ensures |r| == |rows| && forall k :: 0 <= k < |rows| ==> r[k] == Shown(rows[k].id, rows[k].text)
  {
    seq(|rows|, k requires 0 <= k < |rows| => Shown(rows[k].id, rows[k].text))
  }

  /** An attempt starts: its prompt joins the tree, and the two writes go out. */
  function Begin(c: Conversation, attempt: Attempt, saves: Saves): Conversation
    requires c.live.Some? && c.live.value.pivot < |c.rows|
  {
    var pivot := c.live.value.pivot;
    var t := |c.turns|;
    var (parent, sid) :=
      match attempt.kind
      case Continue(Some(s)) => (if s in c.heads then Some(c.heads[s]) else None, s)
      case Fork(s, at) => (Some(at), s)
      case _ => (None, t);
    var row := c.rows[pivot];
    c.(turns := c.turns + [Turn(row.id, parent, sid, [Shown(row.id, row.text)] + ShowRows(attempt.shown))],
       heads := c.heads[sid := t],
       session := if saves.session then Some(sid) else c.session,
       rows := if saves.join then RecordJoin(c.rows, pivot, t) else c.rows,
       live := Some(c.live.value.(phase := Started(t))))
  }

  /** Cutting the page back to a user row: later rows go, and so do the turns of this row and them. */
  function CutBack(c: Conversation, k: nat, text: string): Conversation
    requires k < |c.rows|
  {
    c.(rows := c.rows[..k] + [c.rows[k].(text := text, cutPending := true)],
       dropped := c.dropped + set t | 0 <= t < |c.turns| && IsRowFrom(c.rows, k, c.turns[t].row) :: t)
  }

  predicate IsRowFrom(rows: seq<Row>, k: nat, id: nat) {
    exists i :: k <= i < |rows| && rows[i].id == id
  }

  /** A saved reply; one that no turn stands behind has nowhere to cut the session back to. */
  function WithReply(c: Conversation, text: string, session: Option<nat>, tail: Option<nat>): Conversation {
    c.(rows := c.rows + [Row(c.nextRow, Assistant, text, false, None, session, tail)],
       nextRow := c.nextRow + 1,
       live := None)
  }

  function Apply(c: Conversation, e: Event): Conversation
    requires Enabled(c, e)
  {
    match e
    case Send(text) =>
      var rows := c.rows + [Row(c.nextRow, User, Trim(text), false, None, None, None)];
      c.(rows := rows, nextRow := c.nextRow + 1, live := Planning(c, rows, |rows| - 1, false))
    case Regenerate => c.(live := Planning(c, c.rows, LastUser(c.rows).value, true))
    case Edit(k, text) => CutBack(c, k, text)
    case Truncate(k) => CutBack(c, k, c.rows[k].text)
    case StartFirst(saves) => Begin(c, c.live.value.plan.first, saves)
    case StartFallback(saves) => Begin(c, c.live.value.plan.fallback.value, saves)
    case Refuse(announced) =>
      var pivot := c.live.value.pivot;
      c.(rows := if announced then RecordJoin(c.rows, pivot, |c.turns|) else c.rows,
         live := Some(c.live.value.(phase := Refused(announced && AnyPending(c.rows)))))
    case FailToStart(reply) => if reply.Some? then WithReply(c, reply.value, None, None) else c.(live := None)
    case SaveReply(text, withTail) =>
      var t := c.live.value.phase.turn;
      WithReply(c, text, Some(c.turns[t].session), if withTail then Some(t) else None)
    case Die => c.(live := None)
  }

  /**
   * The steps that lose a pending cut: the mark is cleared, but the session the next message
   * resumes is still the uncut one. Either the refused attempt had announced its session and no
   * fallback takes its place, or a fresh session started, its join was saved and it was not.
   */
  predicate Strands(c: Conversation, e: Event)
    requires Enabled(c, e)
  {
    match e
    case FailToStart(_) => c.live.value.phase == Refused(true)
    case StartFallback(saves) =>
      !saves.session && (c.live.value.phase == Refused(true) || (saves.join && AnyPending(c.rows)))
    case StartFirst(saves) =>
      c.live.value.plan.first.kind == Fresh && !saves.session && saves.join && AnyPending(c.rows) && c.session.Some?
    case _ => false
  }

  /** What the page reads: who said what. */
  function Reads(c: Conversation): seq<(Role, string)> {
    seq(|c.rows|, k requires 0 <= k < |c.rows| => (c.rows[k].role, c.rows[k].text))
  }

  /**
   * What becomes of the page: a message and a reply are put at its end, an edit or a cut drops all
   * below its row, and nothing else changes what it reads.
   */
  lemma PageChanges(c: Conversation, e: Event)
    requires Enabled(c, e)
    ensures var (page, page') := (Reads(c), Reads(Apply(c, e)));
            match e
            case Send(text) => page' == page + [(User, Trim(text))]
            case Edit(k, text) => page' == page[..k] + [(User, text)]
            case Truncate(k) => page' == page[..k + 1]
            case FailToStart(Some(reply)) => page' == page + [(Assistant, reply)]
            case SaveReply(text, _) => page' == page + [(Assistant, text)]
            case _ => page' == page
  {
    hide Trim, PlanTurn;
  }

  // ----- What every conversation keeps -----

  ghost predicate RowsOk(c: Conversation) {
    && (forall k :: 0 <= k < |c.rows| ==> c.rows[k].id < c.nextRow)
    && (forall j, k :: 0 <= j < k < |c.rows| ==> c.rows[j].id != c.rows[k].id)
    && (forall k :: 0 <= k < |c.rows| && c.rows[k].cutPending ==> c.rows[k].role == User)
  }

  ghost predicate TreeOk(c: Conversation) {
    && (forall t :: t in c.dropped ==> t < |c.turns|)
    && (forall s :: s in c.heads ==> c.heads[s] < |c.turns| && c.turns[c.heads[s]].session == s)
    && (forall t :: 0 <= t < |c.turns| ==> c.turns[t].session <= t)
    && (c.session.Some? ==> c.session.value in c.heads)
  }

  /** The turn's own row stands at `k`; all it shows stands there or above, as it reads now. */
  ghost predicate ShowsFrom(c: Conversation, t: nat, k: nat)
    requires t < |c.turns|
  {
    && k < |c.rows| && c.rows[k].id == c.turns[t].row
    && (exists s :: s in c.turns[t].shows && s.row == c.turns[t].row)
    && (forall s :: s in c.turns[t].shows ==> OnPage(c.rows, k + 1, s))
  }

  /** A turn no cut dropped shows its own row, above `upto`, and earlier rows, all as they read now. */
  ghost predicate TurnOk(c: Conversation, t: nat, upto: nat) {
    t < |c.turns| && (t in c.dropped || exists k: nat :: k < upto && ShowsFrom(c, t, k))
  }

  ghost predicate ChainOk(c: Conversation, t: nat, upto: nat) {
    t < |c.turns| && forall u :: u in Chain(c.turns, t) ==> TurnOk(c, u, upto)
  }

  ghost predicate TurnsOk(c: Conversation) {
    forall t: nat :: t < |c.turns| ==> TurnOk(c, t, |c.rows|)
  }

  /** A reply's tail is a turn of its session; what its chain has left on the page is above the reply. */
  ghost predicate TailOk(c: Conversation, k: nat)
    requires k < |c.rows|
  {
    c.rows[k].role == Assistant && c.rows[k].tail.Some? ==>
      && c.rows[k].session.Some?
      && ChainOk(c, c.rows[k].tail.value, k)
      && c.turns[c.rows[k].tail.value].session == c.rows[k].session.value
  }

  ghost predicate TailsOk(c: Conversation) {
    forall k: nat :: k < |c.rows| ==> TailOk(c, k)
  }

  ghost predicate AttemptOk(c: Conversation, attempt: Attempt, pivot: nat)
    requires pivot < |c.rows|
  {
    && (ResumePoint(c, attempt.kind).Some? ==> ChainOk(c, ResumePoint(c, attempt.kind).value, pivot))
    && (forall row :: row in attempt.shown ==> OnPage(c.rows, pivot, Shown(row.id, row.text)))
    && match attempt.kind
       case Continue(r) => r == c.session && !AnyPending(c.rows)
       case Fork(s, at) => c.session == Some(s) && at < |c.turns| && c.turns[at].session == s
       case Fresh => true
  }

  ghost predicate LiveOk(c: Conversation, live: Live) {
    && live.pivot < |c.rows| && c.rows[live.pivot].role == User
    && (forall k :: live.pivot < k < |c.rows| ==> c.rows[k].role == Assistant)
    && (live.plan.fallback.Some? ==> live.plan.fallback.value.kind == Fresh)
    && match live.phase
       case Planned =>
         && AttemptOk(c, live.plan.first, live.pivot)
         && (live.plan.fallback.Some? ==>
               AttemptOk(c, live.plan.fallback.value, live.pivot) && live.plan.first.kind.Fork?)
       case Refused(cleared) =>
         && (cleared ==> !AnyPending(c.rows))
         && live.plan.fallback.Some? && AttemptOk(c, live.plan.fallback.value, live.pivot) && c.session.Some?
       case Started(t) => ChainOk(c, t, live.pivot + 1)
  }

  /** What holds whatever happens, lost cuts included. */
  ghost predicate Sound(c: Conversation) {
    && RowsOk(c) && TreeOk(c) && TurnsOk(c) && TailsOk(c)
    && (c.live.Some? ==> LiveOk(c, c.live.value))
  }

  lemma SoundIsShaped(c: Conversation)
    requires Sound(c)
    ensures Shaped(c)
  {
    hide AttemptOk, TurnsOk, TailsOk, RowsOk, AnyPending;
  }

  // ----- Chains and cuts -----

  /** No turn of the chain was dropped by a cut. */
  ghost predicate Clean(c: Conversation, t: nat)
    requires t < |c.turns|
  {
    Chain(c.turns, t) !! c.dropped
  }

  /** The chain an attempt resumes, if any, holds no dropped turn. */
  ghost predicate CleanStart(c: Conversation, kind: Kind) {
    var point := ResumePoint(c, kind);
    point.Some? ==> point.value < |c.turns| && Clean(c, point.value)
  }

  lemma TurnShows(c: Conversation, t: nat, upto: nat)
    requires TurnOk(c, t, upto) && upto <= |c.rows|
    ensures t !in c.dropped <==> Current(c, t, upto)
  {
    if t !in c.dropped {
      var k: nat :| k < upto && ShowsFrom(c, t, k);
      forall s | s in c.turns[t].shows
        ensures OnPage(c.rows, upto, s)
      {
        assert OnPage(c.rows, k + 1, s);
      }
    }
  }

  /** A chain shows only the page exactly when no cut has dropped any of its turns. */
  lemma CurrentIsClean(c: Conversation, t: nat, upto: nat)
    requires ChainOk(c, t, upto) && upto <= |c.rows|
    ensures ChainCurrent(c, t, upto) <==> Clean(c, t)
  {
    hide Current, TurnOk;
    forall u | u in Chain(c.turns, t)
      ensures u < |c.turns| && (u !in c.dropped <==> Current(c, u, upto))
    {
      InTree(c, u, upto);
      TurnShows(c, u, upto);
    }
  }

  lemma InTree(c: Conversation, t: nat, upto: nat)
    requires TurnOk(c, t, upto)
    ensures t < |c.turns|
  {
  }

  /**
   * In any conversation, a turn about to start sees only the page exactly when the session it
   * resumes holds no turn that a cut has dropped.
   */
  lemma StartSees(c: Conversation, attempt: Attempt, pivot: nat)
    requires pivot < |c.rows| && AttemptOk(c, attempt, pivot)
    ensures SeesOnlyThePage(c, attempt, pivot) <==> CleanStart(c, attempt.kind)
  {
    hide ChainCurrent, ChainOk, Clean, OnPage;
    var point := ResumePoint(c, attempt.kind);
    if point.Some? {
      ChainInTree(c, point.value, pivot);
      CurrentIsClean(c, point.value, pivot);
    }
  }

  lemma ChainInTree(c: Conversation, t: nat, upto: nat)
    requires ChainOk(c, t, upto)
    ensures t < |c.turns|
  {
  }

  // ----- What keeps a turn in order -----

  /** The first `n` rows keep their place and text, turns are only added, and what was dropped stays dropped. */
  ghost predicate Keeps(c: Conversation, c': Conversation, n: nat) {
    && n <= |c.rows| && n <= |c'.rows|
    && (forall k :: 0 <= k < n ==> c'.rows[k].id == c.rows[k].id && c'.rows[k].text == c.rows[k].text)
    && |c.turns| <= |c'.turns| && c'.turns[..|c.turns|] == c.turns && c.dropped <= c'.dropped
  }

  lemma TurnKept(c: Conversation, c': Conversation, n: nat, t: nat, upto: nat)
    requires Keeps(c, c', n) && TurnOk(c, t, upto)
    requires forall k: nat :: n <= k && ShowsFrom(c, t, k) ==> t in c'.dropped
    ensures TurnOk(c', t, upto)
  {
    assert c'.turns[t] == c.turns[t];
    if t !in c'.dropped {
      var k: nat :| k < upto && ShowsFrom(c, t, k);
      forall s | s in c.turns[t].shows
        ensures OnPage(c'.rows, k + 1, s)
      {
        assert OnPage(c.rows, k + 1, s);
      }
      assert ShowsFrom(c', t, k);
    }
  }

  /** Where no row goes or changes, every chain stays in order. */
  lemma ChainKept(c: Conversation, c': Conversation, t: nat, upto: nat)
    requires Keeps(c, c', |c.rows|) && ChainOk(c, t, upto)
    ensures ChainOk(c', t, upto)
  {
    hide TurnOk, ShowsFrom;
    ChainStable(c.turns, c'.turns[|c.turns|..], t);
    assert c'.turns == c.turns + c'.turns[|c.turns|..];
    forall u | u in Chain(c'.turns, t)
      ensures TurnOk(c', u, upto)
    {
      InTree(c, u, upto);
      NoRowBelow(c, u);
      TurnKept(c, c', |c.rows|, u, upto);
    }
  }

  lemma NoRowBelow(c: Conversation, t: nat)
    requires t < |c.turns|
    ensures forall k: nat :: |c.rows| <= k ==> !ShowsFrom(c, t, k)
  {
  }

  lemma ChainWider(c: Conversation, t: nat, upto1: nat, upto2: nat)
    requires upto1 <= upto2 && ChainOk(c, t, upto1)
    ensures ChainOk(c, t, upto2)
  {
    forall u | u in Chain(c.turns, t)
      ensures TurnOk(c, u, upto2)
    {
      assert TurnOk(c, u, upto1);
    }
  }

  /** In a sound tree every chain is in order as far as the whole page goes. */
  lemma WholeChain(c: Conversation, t: nat)
    requires TurnsOk(c) && t < |c.turns|
    ensures ChainOk(c, t, |c.rows|)
  {
    hide TurnOk;
    ChainBounds(c.turns, t);
  }

  lemma TurnsKept(c: Conversation, c': Conversation)
    requires TurnsOk(c) && Keeps(c, c', |c.rows|)
    ensures forall t: nat :: t < |c.turns| ==> TurnOk(c', t, |c'.rows|)
  {
    hide ShowsFrom, TurnOk;
    forall t: nat | t < |c.turns|
      ensures TurnOk(c', t, |c'.rows|)
    {
      assert TurnOk(c, t, |c.rows|);
      NoRowBelow(c, t);
      TurnKept(c, c', |c.rows|, t, |c.rows|);
      TurnWider(c', t, |c.rows|, |c'.rows|);
    }
  }

  lemma TurnWider(c: Conversation, t: nat, upto1: nat, upto2: nat)
    requires TurnOk(c, t, upto1) && upto1 <= upto2
    ensures TurnOk(c, t, upto2)
  {
  }

  /** Adding a row at the end or changing marks leaves every reply's tail in order. */
  lemma TailsKept(c: Conversation, c': Conversation)
    requires TailsOk(c) && Keeps(c, c', |c.rows|)
    requires forall k :: 0 <= k < |c.rows| ==>
               && c'.rows[k].role == c.rows[k].role && c'.rows[k].tail == c.rows[k].tail
               && c'.rows[k].session == c.rows[k].session
    ensures forall k: nat :: k < |c.rows| ==> TailOk(c', k)
  {
    hide ChainOk;
    forall k: nat | k < |c.rows|
      ensures TailOk(c', k)
    {
      assert TailOk(c, k);
      if c.rows[k].role == Assistant && c.rows[k].tail.Some? {
        ChainInTree(c, c.rows[k].tail.value, k);
        ChainKept(c, c', c.rows[k].tail.value, k);
      }
    }
  }

  lemma PlainRow(c: Conversation, k: nat)
    requires k < |c.rows| && (c.rows[k].role == User || c.rows[k].tail.None?)
    ensures TailOk(c, k)
  {
  }

  // ----- Planning a turn -----

  /** Rows quoted in front of a prompt are rows of the page above it. */
  lemma QuotedRows(rows: seq<Row>, quoted: seq<Row>, pivot: nat)
    requires pivot <= |rows|
    requires forall row :: row in quoted ==> row in rows[..pivot]
    ensures forall row :: row in Spoken(quoted) ==> OnPage(rows, pivot, Shown(row.id, row.text))
  {
    hide Spoken, Speaks;
    SpokenRows(quoted);
    forall row | row in Spoken(quoted)
      ensures OnPage(rows, pivot, Shown(row.id, row.text))
    {
      var k :| 0 <= k < pivot && rows[..pivot][k] == row;
      assert rows[k] == row;
    }
  }

  /** What a plan resumes: the session as it is, the tail of the last reply above, or nothing. */
  lemma PlanShape(c: Conversation, pivot: nat, regenerate: bool)
    requires TailsOk(c) && pivot < |c.rows|
    ensures var plan := PlanTurn(c.rows, c.session, pivot, regenerate);
            && (plan.first.kind.Continue? ==>
                  && plan.first == Attempt(Continue(c.session), []) && plan.fallback.None?
                  && !regenerate && !AnyPending(c.rows))
            && (plan.first.kind.Fork? ==>
                  && c.session == Some(plan.first.kind.session)
                  && plan.fallback.Some?
                  && exists k: nat :: k < pivot && c.rows[k].role == Assistant
                                      && c.rows[k].tail == Some(plan.first.kind.at) && c.rows[k].session == c.session)
            && (plan.fallback.Some? ==> plan.fallback.value.kind == Fresh && plan.first.kind.Fork?)
  {
    hide Spoken, UnansweredTail, IsSlashCommand, AnyPending, Latest, TailsOk;
    var previous := LastAssistant(c.rows[..pivot]);
    if previous.Some? {
      var k := previous.value;
      assert c.rows[..pivot][k] == c.rows[k];
    }
  }

  /** The rows a plan quotes are on the page above the turn, as they read now. */
  lemma PlanQuotes(c: Conversation, pivot: nat, regenerate: bool)
    requires pivot < |c.rows|
    ensures var plan := PlanTurn(c.rows, c.session, pivot, regenerate);
            && (forall row :: row in plan.first.shown ==> OnPage(c.rows, pivot, Shown(row.id, row.text)))
            && (plan.fallback.Some? ==>
                  forall row :: row in plan.fallback.value.shown ==> OnPage(c.rows, pivot, Shown(row.id, row.text)))
  {
    hide Spoken, UnansweredTail, IsSlashCommand, OnPage, LastAssistant, AnyPending;
    var before := c.rows[..pivot];
    var kept := Latest(before, KEPT_HISTORY_ROWS);
    TailRows(kept);
    assert forall row :: row in kept ==> row in before;
    QuotedRows(c.rows, kept, pivot);
    QuotedRows(c.rows, UnansweredTail(kept), pivot);
    NothingSpoken();
  }

  lemma NothingSpoken()
    ensures Spoken([]) == []
  {
  }

  /** A plan's attempts are in order, lost cuts or not. */
  lemma PlanOk(c: Conversation, pivot: nat, regenerate: bool)
    requires RowsOk(c) && TreeOk(c) && TailsOk(c) && pivot < |c.rows|
    requires !regenerate && c.session.Some? ==> ChainOk(c, c.heads[c.session.value], pivot)
    ensures var plan := PlanTurn(c.rows, c.session, pivot, regenerate);
            && AttemptOk(c, plan.first, pivot)
            && (plan.fallback.Some? ==> AttemptOk(c, plan.fallback.value, pivot))
  {
    hide PlanTurn, OnPage, ChainOk, AnyPending, RowsOk;
    PlanShape(c, pivot, regenerate);
    PlanQuotes(c, pivot, regenerate);
    var plan := PlanTurn(c.rows, c.session, pivot, regenerate);
    if plan.first.kind.Fork? {
      var k: nat :| k < pivot && c.rows[k].role == Assistant
                    && c.rows[k].tail == Some(plan.first.kind.at) && c.rows[k].session == c.session;
      assert TailOk(c, k);
      ChainInTree(c, plan.first.kind.at, k);
      ChainWider(c, plan.first.kind.at, k, pivot);
    }
  }

  // ----- Every step keeps what every conversation keeps -----

  lemma PendingAppend(rows: seq<Row>, row: Row)
    requires !row.cutPending
    ensures AnyPending(rows + [row]) <==> AnyPending(rows)
  {
    var all := rows + [row];
    assert forall k :: 0 <= k < |rows| ==> all[k] == rows[k];
    if AnyPending(rows) {
      var k :| 0 <= k < |rows| && rows[k].role == User && rows[k].cutPending;
      assert all[k].cutPending;
    }
  }

  /** A new last row with a fresh number and no tail of its own. */
  lemma AppendSound(c: Conversation, c': Conversation, row: Row)
    requires Sound(c) && c'.rows == c.rows + [row] && row.id == c.nextRow && !row.cutPending
    requires c'.nextRow == c.nextRow + 1 && c'.turns == c.turns && c'.heads == c.heads
    requires c'.session == c.session && c'.dropped == c.dropped
    requires row.role == User || row.tail.None? || TailOk(c', |c.rows|)
    ensures Keeps(c, c', |c.rows|) && RowsOk(c') && TreeOk(c') && TurnsOk(c') && TailsOk(c')
  {
    hide TurnOk, TailOk, LiveOk;
    var n := |c.rows|;
    assert forall k :: 0 <= k < n ==> c'.rows[k] == c.rows[k];
    TurnsKept(c, c');
    TailsKept(c, c');
    assert c'.rows[n] == row;
    if row.role == User || row.tail.None? {
      PlainRow(c', n);
    }
  }

  lemma SendSound(c: Conversation, text: string)
    requires Sound(c) && Enabled(c, Send(text))
    ensures Sound(Apply(c, Send(text)))
  {
    hide PlanTurn, Trim, AnyPending, TurnsOk, TailsOk, AttemptOk, RowsOk;
    var n := |c.rows|;
    var c' := Apply(c, Send(text));
    AppendSound(c, c', c'.rows[n]);
    if c.session.Some? {
      WholeChain(c, c.heads[c.session.value]);
      ChainKept(c, c', c.heads[c.session.value], n);
    }
    PlanOk(c', n, false);
    PlanShape(c', n, false);
  }

  lemma RegenerateSound(c: Conversation)
    requires Sound(c) && Enabled(c, Regenerate)
    ensures Sound(Apply(c, Regenerate))
  {
    hide PlanTurn, AnyPending, AttemptOk, LastUser;
    var c' := Apply(c, Regenerate);
    var pivot := LastUser(c.rows).value;
    TurnsKept(c, c');
    TailsKept(c, c');
    PlanOk(c', pivot, true);
    PlanShape(c', pivot, true);
    assert forall k :: pivot < k < |c.rows| ==> c.rows[k].role.User? || c.rows[k].role.Assistant?;
  }

  /** A turn whose row a cut removes or rewrites is dropped by it. */
  lemma CutDrops(c: Conversation, k: nat, text: string, t: nat, j: nat)
    requires k < |c.rows| && t < |c.turns| && k <= j && ShowsFrom(c, t, j)
    ensures t in CutBack(c, k, text).dropped
  {
    assert IsRowFrom(c.rows, k, c.turns[t].row);
  }

  lemma CutTurn(c: Conversation, k: nat, text: string, t: nat, upto: nat)
    requires k < |c.rows| && TurnOk(c, t, upto)
    ensures TurnOk(CutBack(c, k, text), t, upto) && TurnOk(CutBack(c, k, text), t, k)
  {
    var c' := CutBack(c, k, text);
    assert forall i :: 0 <= i < k ==> c'.rows[i] == c.rows[i];
    forall j: nat | k <= j && ShowsFrom(c, t, j)
      ensures t in c'.dropped
    {
      CutDrops(c, k, text, t, j);
    }
    TurnKept(c, c', k, t, upto);
    if t !in c'.dropped {
      var j: nat :| j < upto && ShowsFrom(c, t, j);
      assert j < k;
      TurnKept(c, c', k, t, j + 1);
      var i: nat :| i < j + 1 && ShowsFrom(c', t, i);
    }
  }

  lemma CutSound(c: Conversation, k: nat, text: string)
    requires Sound(c) && c.live.None? && k < |c.rows| && c.rows[k].role == User
    ensures Sound(CutBack(c, k, text))
  {
    hide TurnOk, IsRowFrom;
    var c' := CutBack(c, k, text);
    forall t: nat | t < |c'.turns|
      ensures TurnOk(c', t, |c'.rows|)
    {
      assert TurnOk(c, t, |c.rows|);
      CutTurn(c, k, text, t, |c.rows|);
      TurnWider(c', t, k, |c'.rows|);
    }
    forall i: nat | i < |c'.rows|
      ensures TailOk(c', i)
    {
      if i < k {
        assert TailOk(c, i) && c'.rows[i] == c.rows[i];
        if c.rows[i].role == Assistant && c.rows[i].tail.Some? {
          forall u | u in Chain(c.turns, c.rows[i].tail.value)
            ensures TurnOk(c', u, i)
          {
            CutTurn(c, k, text, u, i);
          }
        }
      }
    }
  }

  lemma SameTexts(c: Conversation, attempt: Attempt, saves: Saves)
    requires c.live.Some? && c.live.value.pivot < |c.rows|
    ensures var c' := Begin(c, attempt, saves);
            && |c'.rows| == |c.rows| && Keeps(c, c', |c.rows|)
            && forall k :: 0 <= k < |c.rows| ==>
                 && c'.rows[k].id == c.rows[k].id && c'.rows[k].text == c.rows[k].text
                 && c'.rows[k].role == c.rows[k].role && c'.rows[k].tail == c.rows[k].tail
                 && c'.rows[k].session == c.rows[k].session && (c'.rows[k].cutPending ==> c.rows[k].cutPending)
  {
  }

  /** A starting turn shows its own row and what its attempt quotes: rows of the page up to it. */
  lemma BeginShows(c: Conversation, attempt: Attempt, saves: Saves)
    requires c.live.Some? && c.live.value.pivot < |c.rows| && AttemptOk(c, attempt, c.live.value.pivot)
    ensures ShowsFrom(Begin(c, attempt, saves), |c.turns|, c.live.value.pivot)
  {
    hide ChainOk;
    var pivot, c' := c.live.value.pivot, Begin(c, attempt, saves);
    SameTexts(c, attempt, saves);
    var shows := c'.turns[|c.turns|].shows;
    assert shows[0] in shows;
    forall s | s in shows
      ensures OnPage(c'.rows, pivot + 1, s)
    {
      if s == Shown(c.rows[pivot].id, c.rows[pivot].text) {
        assert c'.rows[pivot].id == s.row;
      } else {
        assert s in ShowRows(attempt.shown);
        var k :| 0 <= k < |attempt.shown| && ShowRows(attempt.shown)[k] == s;
        assert attempt.shown[k] in attempt.shown;
        assert OnPage(c.rows, pivot, s);
      }
    }
  }

  /** The new turn's chain is the one it resumes and itself. */
  lemma BeginChain(c: Conversation, attempt: Attempt, saves: Saves)
    requires c.live.Some? && c.live.value.pivot < |c.rows| && AttemptOk(c, attempt, c.live.value.pivot)
    ensures ChainOk(Begin(c, attempt, saves), |c.turns|, c.live.value.pivot + 1)
    ensures Chain(Begin(c, attempt, saves).turns, |c.turns|)
            == {|c.turns|} + if ResumePoint(c, attempt.kind).Some? && ResumePoint(c, attempt.kind).value < |c.turns|
                             then Chain(c.turns, ResumePoint(c, attempt.kind).value) else {}
  {
    hide TurnOk, ShowsFrom, OnPage;
    var pivot, c', t := c.live.value.pivot, Begin(c, attempt, saves), |c.turns|;
    SameTexts(c, attempt, saves);
    BeginShows(c, attempt, saves);
    ShowingIsOk(c', t, pivot);
    var point := ResumePoint(c, attempt.kind);
    if point.Some? {
      ChainInTree(c, point.value, pivot);
      ChainKept(c, c', point.value, pivot);
      ChainWider(c', point.value, pivot, pivot + 1);
      ChainStable(c.turns, c'.turns[t..], point.value);
      assert c'.turns == c.turns + c'.turns[t..];
    }
  }

  lemma ShowingIsOk(c: Conversation, t: nat, k: nat)
    requires t < |c.turns| && ShowsFrom(c, t, k)
    ensures TurnOk(c, t, k + 1)
  {
  }

  lemma BeginSound(c: Conversation, attempt: Attempt, saves: Saves)
    requires Sound(c) && c.live.Some? && AttemptOk(c, attempt, c.live.value.pivot)
    ensures Sound(Begin(c, attempt, saves))
  {
    hide PlanTurn, AnyPending, TailOk, TurnOk, RecordJoin, Chain, AttemptOk, ChainOk, ShowsFrom;
    var live, c', t := c.live.value, Begin(c, attempt, saves), |c.turns|;
    SameTexts(c, attempt, saves);
    TailsKept(c, c');
    TurnsKept(c, c');
    BeginShows(c, attempt, saves);
    ShowingIsOk(c', t, live.pivot);
    TurnWider(c', t, live.pivot + 1, |c'.rows|);
    BeginChain(c, attempt, saves);
    KindInTree(c, attempt, live.pivot);
  }

  lemma KindInTree(c: Conversation, attempt: Attempt, pivot: nat)
    requires pivot < |c.rows| && AttemptOk(c, attempt, pivot)
    ensures attempt.kind.Continue? ==> attempt.kind.resume == c.session && !AnyPending(c.rows)
    ensures attempt.kind.Fork? ==> c.session == Some(attempt.kind.session)
  {
  }

  lemma RefuseSound(c: Conversation, announced: bool)
    requires Sound(c) && Enabled(c, Refuse(announced))
    ensures Sound(Apply(c, Refuse(announced)))
  {
    hide PlanTurn, AnyPending, TailOk, TurnOk, RecordJoin, Chain, ChainOk;
    var live, c' := c.live.value, Apply(c, Refuse(announced));
    RecordJoinSame(c.rows, live.pivot, |c.turns|);
    assert Keeps(c, c', |c.rows|);
    TailsKept(c, c');
    TurnsKept(c, c');
    JoinClears(c, live, |c.turns|);
    QuotesKept(c, c', live.plan.fallback.value, live.pivot);
  }

  lemma RecordJoinSame(rows: seq<Row>, pivot: nat, turn: nat)
    requires pivot < |rows|
    ensures var rows' := RecordJoin(rows, pivot, turn);
            forall k :: 0 <= k < |rows| ==>
              && rows'[k].id == rows[k].id && rows'[k].text == rows[k].text && rows'[k].role == rows[k].role
              && rows'[k].tail == rows[k].tail && rows'[k].session == rows[k].session
              && (rows'[k].cutPending ==> rows[k].cutPending)
  {
  }

  lemma QuotesKept(c: Conversation, c': Conversation, attempt: Attempt, pivot: nat)
    requires pivot < |c.rows| == |c'.rows| && AttemptOk(c, attempt, pivot) && attempt.kind == Fresh
    requires forall k :: 0 <= k < |c.rows| ==> c'.rows[k].id == c.rows[k].id && c'.rows[k].text == c.rows[k].text
    ensures AttemptOk(c', attempt, pivot)
  {
    forall row | row in attempt.shown
      ensures OnPage(c'.rows, pivot, Shown(row.id, row.text))
    {
      assert OnPage(c.rows, pivot, Shown(row.id, row.text));
    }
  }

  /** After a join is recorded no cut is pending: the turn's row is the last user row. */
  lemma JoinClears(c: Conversation, live: Live, turn: nat)
    requires RowsOk(c) && LiveOk(c, live)
    ensures !AnyPending(RecordJoin(c.rows, live.pivot, turn))
  {
    var rows := RecordJoin(c.rows, live.pivot, turn);
    forall k | 0 <= k < |rows| && rows[k].role == User
      ensures !rows[k].cutPending
    {
      assert k <= live.pivot;
    }
  }

  /** A reply row, with the tail of the turn that ran or with none, and the turn over. */
  lemma ReplySound(c: Conversation, text: string, t: Option<nat>)
    requires Sound(c) && c.live.Some?
    requires t.Some? ==> c.live.value.phase == Started(t.value)
    ensures t.Some? ==> t.value < |c.turns|
    ensures Sound(WithReply(c, text, if t.Some? then Some(c.turns[t.value].session) else None, t))
  {
    hide TurnsOk, TailsOk, ChainOk, RowsOk, AttemptOk;
    var n, live := |c.rows|, c.live.value;
    if t.Some? {
      ChainInTree(c, t.value, live.pivot + 1);
    }
    var c' := WithReply(c, text, if t.Some? then Some(c.turns[t.value].session) else None, t);
    if t.Some? {
      ChainWider(c, t.value, live.pivot + 1, n);
      AppendKeeps(c, c', c'.rows[n]);
      ChainKept(c, c', t.value, n);
    }
    AppendSound(c, c', c'.rows[n]);
  }

  lemma AppendKeeps(c: Conversation, c': Conversation, row: Row)
    requires c'.rows == c.rows + [row] && c'.turns == c.turns && c'.dropped == c.dropped
    ensures Keeps(c, c', |c.rows|)
  {
  }

  lemma SaveReplySound(c: Conversation, text: string, withTail: bool)
    requires Sound(c) && Enabled(c, SaveReply(text, withTail))
    ensures Sound(Apply(c, SaveReply(text, withTail)))
  {
    hide TurnsOk, TailsOk, RowsOk, TreeOk, LiveOk;
    var t := c.live.value.phase.turn;
    ReplySound(c, text, Some(t));
    if !withTail {
      var c' := Apply(c, SaveReply(text, withTail));
      hide Sound;
      UntailedSound(c, c', c'.rows[|c.rows|]);
    }
  }

  lemma UntailedSound(c: Conversation, c': Conversation, row: Row)
    requires Sound(c) && c'.rows == c.rows + [row] && row.id == c.nextRow && !row.cutPending && row.tail.None?
    requires c'.nextRow == c.nextRow + 1 && c'.turns == c.turns && c'.heads == c.heads
    requires c'.session == c.session && c'.dropped == c.dropped && c'.live.None?
    ensures Sound(c')
  {
    hide TurnsOk, TailsOk, RowsOk, LiveOk;
    AppendSound(c, c', row);
  }

  lemma EndSound(c: Conversation)
    requires Sound(c)
    ensures Sound(c.(live := None))
  {
    hide LiveOk;
    var c' := c.(live := None);
    TurnsKept(c, c');
    TailsKept(c, c');
  }

  /** Every step of every conversation, whatever it loses, leaves a sound conversation. */
  lemma StepSound(c: Conversation, e: Event)
    requires Sound(c) && Enabled(c, e)
    ensures Sound(Apply(c, e))
  {
    match e {
      case Send(text) => SendSound(c, text);
      case Regenerate => RegenerateSound(c);
      case Edit(k, text) => CutSound(c, k, text);
      case Truncate(k) => CutSound(c, k, c.rows[k].text);
      case StartFirst(saves) => BeginSound(c, c.live.value.plan.first, saves);
      case StartFallback(saves) => BeginSound(c, c.live.value.plan.fallback.value, saves);
      case Refuse(announced) => RefuseSound(c, announced);
      case FailToStart(reply) =>
        if reply.Some? {
          ReplySound(c, reply.value, None);
        } else {
          EndSound(c);
        }
      case SaveReply(text, withTail) => SaveReplySound(c, text, withTail);
      case Die => EndSound(c);
    }
  }

  // ----- Whole conversations -----

  const NEW_CONVERSATION := Conversation([], 0, None, [], map[], None, {})

  ghost predicate AllEnabled(c: Conversation, events: seq<Event>)
    decreases |events|
  {
    events == [] || (Enabled(c, events[0]) && AllEnabled(Apply(c, events[0]), events[1..]))
  }

  ghost function Run(c: Conversation, events: seq<Event>): Conversation
    requires AllEnabled(c, events)
    decreases |events|
  {
    if events == [] then c else Run(Apply(c, events[0]), events[1..])
  }

  /** The attempt an event starts, if it starts one. */
  function Starting(c: Conversation, e: Event): Option<Attempt>
    requires Enabled(c, e)
  {
    match e
    case StartFirst(_) => Some(c.live.value.plan.first)
    case StartFallback(_) => c.live.value.plan.fallback
    case _ => None
  }

  lemma NewConversationOk()
    ensures Sound(NEW_CONVERSATION) && Inv(NEW_CONVERSATION)
  {
  }

  /** Every conversation, from a new one on, is sound. */
  lemma {:induction false} RunSound(c: Conversation, events: seq<Event>)
    requires Sound(c) && AllEnabled(c, events)
    ensures Sound(Run(c, events))
    decreases |events|
  {
    hide Sound, Apply, Enabled;
    if events != [] {
      StepSound(c, events[0]);
      RunSound(Apply(c, events[0]), events[1..]);
    }
  }

  /** In a sound conversation, a start sees only the page exactly when what it resumes is clean. */
  lemma EveryStart(c: Conversation, e: Event)
    requires Sound(c) && Enabled(c, e) && Starting(c, e).Some?
    ensures c.live.Some? && c.live.value.pivot < |c.rows|
    ensures SeesOnlyThePage(c, Starting(c, e).value, c.live.value.pivot) <==> CleanStart(c, Starting(c, e).value.kind)
  {
    hide AttemptOk, SeesOnlyThePage, CleanStart, TurnsOk, TailsOk, RowsOk;
    StartSees(c, Starting(c, e).value, c.live.value.pivot);
  }

  /** Every attempt that starts along the way sees only the page. */
  ghost predicate StartsSeeOnlyThePage(c: Conversation, events: seq<Event>)
    requires AllEnabled(c, events)
    decreases |events|
  {
    events == [] ||
    (&& (Starting(c, events[0]).Some? ==>
           c.live.Some? && SeesOnlyThePage(c, Starting(c, events[0]).value, c.live.value.pivot))
     && StartsSeeOnlyThePage(Apply(c, events[0]), events[1..]))
  }

  /** No attempt that starts along the way resumes a session with a dropped turn in it. */
  ghost predicate StartsClean(c: Conversation, events: seq<Event>)
    requires AllEnabled(c, events)
    decreases |events|
  {
    events == [] ||
    (&& (Starting(c, events[0]).Some? ==> CleanStart(c, Starting(c, events[0]).value.kind))
     && StartsClean(Apply(c, events[0]), events[1..]))
  }

  /**
   * In every conversation, lost cuts included, all that the starting turns' sessions can see (the
   * resumed turns and the text in front of the prompt) comes from rows on the page above the turn,
   * with their current text, exactly when no start resumed a session holding a turn a cut dropped.
   */
  lemma {:induction false} ConversationsAreJudged(c: Conversation, events: seq<Event>)
    requires Sound(c) && AllEnabled(c, events)
    ensures StartsSeeOnlyThePage(c, events) <==> StartsClean(c, events)
    decreases |events|
  {
    hide Sound, Apply, Enabled, SeesOnlyThePage, CleanStart;
    if events != [] {
      StepSound(c, events[0]);
      if Starting(c, events[0]).Some? {
        EveryStart(c, events[0]);
      }
      ConversationsAreJudged(Apply(c, events[0]), events[1..]);
    }
  }

  // ----- Conversations that lose no cut -----

  /** With no cut pending, the session can be resumed as it is. */
  ghost predicate HeadClean(c: Conversation) {
    (c.live.Some? && c.live.value.phase == Refused(true)) || AnyPending(c.rows)
    || CleanStart(c, Continue(c.session))
  }

  ghost predicate TailClean(c: Conversation, k: nat)
    requires k < |c.rows|
  {
    c.rows[k].tail.Some? && c.rows[k].role == Assistant ==>
      c.rows[k].tail.value < |c.turns| && Clean(c, c.rows[k].tail.value)
  }

  ghost predicate LiveClean(c: Conversation, live: Live) {
    match live.phase
    case Planned => CleanStart(c, live.plan.first.kind)
    case Refused(_) => true
    case Started(t) => t < |c.turns| && Clean(c, t)
  }

  ghost predicate Inv(c: Conversation) {
    && Sound(c) && HeadClean(c)
    && (forall k: nat :: k < |c.rows| ==> TailClean(c, k))
    && (c.live.Some? ==> LiveClean(c, c.live.value))
  }

  /** Turns added and nothing dropped: what was clean is clean. */
  lemma StaysClean(c: Conversation, c': Conversation, t: nat)
    requires t < |c.turns| && |c.turns| <= |c'.turns| && c'.turns[..|c.turns|] == c.turns && c'.dropped == c.dropped
    ensures Clean(c', t) <==> Clean(c, t)
  {
    ChainStable(c.turns, c'.turns[|c.turns|..], t);
    assert c'.turns == c.turns + c'.turns[|c.turns|..];
  }

  /** Cutting back spares a chain all of whose rows stand above the cut. */
  lemma CutSparesChain(c: Conversation, k: nat, text: string, t: nat, upto: nat)
    requires RowsOk(c) && k < |c.rows| && upto <= k && ChainOk(c, t, upto) && Clean(c, t)
    ensures Clean(CutBack(c, k, text), t)
  {
    hide OnPage;
    forall u | u in Chain(c.turns, t)
      ensures u !in CutBack(c, k, text).dropped
    {
      assert TurnOk(c, u, upto);
      var j: nat :| j < upto && ShowsFrom(c, u, j);
      assert !IsRowFrom(c.rows, k, c.turns[u].row);
    }
  }

  lemma CutClean(c: Conversation, k: nat, text: string)
    requires Inv(c) && c.live.None? && k < |c.rows| && c.rows[k].role == User
    ensures Inv(CutBack(c, k, text))
  {
    hide ChainOk, TurnsOk, Clean, LiveOk;
    var c' := CutBack(c, k, text);
    CutSound(c, k, text);
    assert c'.rows[k].cutPending;
    forall i: nat | i < |c'.rows|
      ensures TailClean(c', i)
    {
      if i < k {
        assert c'.rows[i] == c.rows[i];
        assert TailOk(c, i) && TailClean(c, i);
        if c.rows[i].role == Assistant && c.rows[i].tail.Some? {
          CutSparesChain(c, k, text, c.rows[i].tail.value, i);
        }
      }
    }
  }

  /** A plan resumes something clean: the head when nothing is pending, else a reply's tail. */
  lemma PlanClean(c: Conversation, pivot: nat, regenerate: bool)
    requires TailsOk(c) && pivot < |c.rows| && forall k: nat :: k < pivot ==> TailClean(c, k)
    requires !regenerate && !AnyPending(c.rows) ==> CleanStart(c, Continue(c.session))
    ensures CleanStart(c, PlanTurn(c.rows, c.session, pivot, regenerate).first.kind)
  {
    hide PlanTurn, TailsOk, AnyPending, Clean;
    PlanShape(c, pivot, regenerate);
    var plan := PlanTurn(c.rows, c.session, pivot, regenerate);
    if plan.first.kind.Fork? {
      var k: nat :| k < pivot && c.rows[k].role == Assistant
                    && c.rows[k].tail == Some(plan.first.kind.at) && c.rows[k].session == c.session;
      assert TailClean(c, k);
    }
  }

  lemma TailsStayClean(c: Conversation, c': Conversation)
    requires forall k: nat :: k < |c.rows| ==> TailClean(c, k)
    requires |c.rows| <= |c'.rows| && |c.turns| <= |c'.turns|
    requires c'.turns[..|c.turns|] == c.turns && c'.dropped == c.dropped
    requires forall k :: 0 <= k < |c.rows| ==> c'.rows[k].role == c.rows[k].role && c'.rows[k].tail == c.rows[k].tail
    ensures forall k: nat :: k < |c.rows| ==> TailClean(c', k)
  {
    hide Clean;
    forall k: nat | k < |c.rows|
      ensures TailClean(c', k)
    {
      assert TailClean(c, k);
      if c.rows[k].tail.Some? && c.rows[k].role == Assistant {
        StaysClean(c, c', c.rows[k].tail.value);
      }
    }
  }

  /** The session's head as before: just as clean. */
  lemma HeadStays(c: Conversation, c': Conversation)
    requires |c.turns| <= |c'.turns| && c'.turns[..|c.turns|] == c.turns && c'.dropped == c.dropped
    requires TreeOk(c) && c'.session == c.session
    requires c.session.Some? ==> c.session.value in c'.heads && c'.heads[c.session.value] == c.heads[c.session.value]
    ensures CleanStart(c', Continue(c'.session)) <==> CleanStart(c, Continue(c.session))
  {
    hide Clean;
    if c.session.Some? {
      StaysClean(c, c', c.heads[c.session.value]);
    }
  }

  /** A new user row or an untailed reply leaves the page as clean as it was. */
  lemma AppendClean(c: Conversation, c': Conversation, row: Row)
    requires Inv(c) && c'.rows == c.rows + [row] && !row.cutPending && c'.turns == c.turns && c'.heads == c.heads
    requires c'.session == c.session && c'.dropped == c.dropped
    requires row.role == User || row.tail.None? || (row.tail.value < |c.turns| && Clean(c, row.tail.value))
    ensures forall k: nat :: k < |c'.rows| ==> TailClean(c', k)
    ensures AnyPending(c'.rows) <==> AnyPending(c.rows)
    ensures CleanStart(c', Continue(c'.session)) <==> CleanStart(c, Continue(c.session))
  {
    hide TailsOk, TurnsOk, RowsOk, LiveOk, AnyPending, Clean, HeadClean;
    var n := |c.rows|;
    assert forall k :: 0 <= k < n ==> c'.rows[k] == c.rows[k];
    TailsStayClean(c, c');
    HeadStays(c, c');
    PendingAppend(c.rows, row);
    if row.tail.Some? && row.role == Assistant {
      StaysClean(c, c', row.tail.value);
    }
    assert c'.rows[n] == row;
    assert TailClean(c', n);
  }

  lemma SendClean(c: Conversation, text: string)
    requires Inv(c) && Enabled(c, Send(text))
    ensures Inv(Apply(c, Send(text)))
  {
    hide PlanTurn, Trim, AnyPending, Clean, Sound;
    var n, c' := |c.rows|, Apply(c, Send(text));
    SendSound(c, text);
    AppendClean(c, c', c'.rows[n]);
    SoundTails(c');
    PlanClean(c', n, false);
  }

  lemma SoundTails(c: Conversation)
    requires Sound(c)
    ensures TailsOk(c)
  {
  }

  lemma RegenerateClean(c: Conversation)
    requires Inv(c) && Enabled(c, Regenerate)
    ensures Inv(Apply(c, Regenerate))
  {
    hide PlanTurn, AnyPending, Clean, TurnsOk, RowsOk, LiveOk, TailsOk;
    var c' := Apply(c, Regenerate);
    RegenerateSound(c);
    TailsStayClean(c, c');
    HeadStays(c, c');
    PlanClean(c', LastUser(c.rows).value, true);
  }

  lemma BeginClean(c: Conversation, attempt: Attempt, saves: Saves)
    requires Inv(c) && c.live.Some? && c.live.value.pivot < |c.rows|
    requires AttemptOk(c, attempt, c.live.value.pivot) && CleanStart(c, attempt.kind)
    requires c.live.value.phase == Refused(true) ==> attempt.kind == Fresh && saves.session
    requires attempt.kind == Fresh && saves.join && AnyPending(c.rows) && c.session.Some? ==> saves.session
    ensures Inv(Begin(c, attempt, saves))
  {
    hide PlanTurn, AnyPending, RecordJoin, Chain, AttemptOk, ChainOk, ShowsFrom, TailsOk, TurnsOk, RowsOk, LiveOk;
    var live, c', t := c.live.value, Begin(c, attempt, saves), |c.turns|;
    BeginSound(c, attempt, saves);
    SameTexts(c, attempt, saves);
    TailsStayClean(c, c');
    BeginChain(c, attempt, saves);
    KindInTree(c, attempt, live.pivot);
    assert Clean(c', t);
    MarksGo(c, c');
    if c'.session == c.session && c.session.Some? && c.session.value != c'.turns[t].session {
      HeadStays(c, c');
    }
  }

  /** Marks are only cleared: a page with none has none afterwards. */
  lemma MarksGo(c: Conversation, c': Conversation)
    requires |c'.rows| == |c.rows|
    requires forall k :: 0 <= k < |c.rows| ==>
               c'.rows[k].role == c.rows[k].role && (c'.rows[k].cutPending ==> c.rows[k].cutPending)
    ensures AnyPending(c'.rows) ==> AnyPending(c.rows)
  {
    if k :| 0 <= k < |c'.rows| && c'.rows[k].role == User && c'.rows[k].cutPending {
      assert c.rows[k].role == User && c.rows[k].cutPending;
    }
  }

  lemma FreshIsClean(c: Conversation)
    ensures CleanStart(c, Fresh)
  {
  }

  lemma RefuseClean(c: Conversation, announced: bool)
    requires Inv(c) && Enabled(c, Refuse(announced))
    ensures Inv(Apply(c, Refuse(announced)))
  {
    hide PlanTurn, AnyPending, RecordJoin, Clean, TailsOk, TurnsOk, RowsOk, LiveOk;
    var c' := Apply(c, Refuse(announced));
    RefuseSound(c, announced);
    RecordJoinSame(c.rows, c.live.value.pivot, |c.turns|);
    TailsStayClean(c, c');
    HeadStays(c, c');
    MarksGo(c, c');
  }

  lemma ReplyClean(c: Conversation, text: string, session: Option<nat>, tail: Option<nat>)
    requires Inv(c) && c.live.Some? && c.live.value.phase != Refused(true)
    requires tail.Some? ==> c.live.value.phase == Started(tail.value)
    requires Sound(WithReply(c, text, session, tail))
    ensures Inv(WithReply(c, text, session, tail))
  {
    hide PlanTurn, AnyPending, Clean, Sound;
    var c' := WithReply(c, text, session, tail);
    AppendClean(c, c', c'.rows[|c.rows|]);
  }

  lemma EndClean(c: Conversation)
    requires Inv(c) && c.live.Some? && c.live.value.phase != Refused(true)
    ensures Inv(c.(live := None))
  {
    hide PlanTurn, AnyPending, Clean, TailsOk, TurnsOk, RowsOk, LiveOk;
    var c' := c.(live := None);
    EndSound(c);
    TailsStayClean(c, c');
    HeadStays(c, c');
  }

  /** Every step that does not strand a cut keeps the invariant. */
  lemma StepOk(c: Conversation, e: Event)
    requires Inv(c) && Enabled(c, e) && !Strands(c, e)
    ensures Inv(Apply(c, e))
  {
    hide AttemptOk, CleanStart, HeadClean, TailClean, TailsOk, TurnsOk, RowsOk, AnyPending;
    StepSound(c, e);
    match e {
      case Send(text) => SendClean(c, text);
      case Regenerate => RegenerateClean(c);
      case Edit(k, text) => CutClean(c, k, text);
      case Truncate(k) => CutClean(c, k, c.rows[k].text);
      case StartFirst(saves) => BeginClean(c, c.live.value.plan.first, saves);
      case StartFallback(saves) =>
        FreshIsClean(c);
        BeginClean(c, c.live.value.plan.fallback.value, saves);
      case Refuse(announced) => RefuseClean(c, announced);
      case FailToStart(reply) =>
        if reply.Some? {
          ReplyClean(c, reply.value, None, None);
        } else {
          EndClean(c);
        }
      case SaveReply(text, withTail) =>
        var t := c.live.value.phase.turn;
        ReplyClean(c, text, Some(c.turns[t].session), if withTail then Some(t) else None);
      case Die => EndClean(c);
    }
  }

  /** None of the events strands a cut. */
  ghost predicate Unstranded(c: Conversation, events: seq<Event>)
    requires AllEnabled(c, events)
    decreases |events|
  {
    events == [] || (!Strands(c, events[0]) && Unstranded(Apply(c, events[0]), events[1..]))
  }

  /**
   * In every conversation that strands no cut, every start sees only the page: a turn dropped by a
   * cut is never seen again.
   */
  lemma {:induction false} ConversationsSeeOnlyThePage(c: Conversation, events: seq<Event>)
    requires Inv(c) && AllEnabled(c, events) && Unstranded(c, events)
    ensures StartsSeeOnlyThePage(c, events)
    decreases |events|
  {
    hide Inv, Apply, Enabled, SeesOnlyThePage, CleanStart, Strands;
    if events != [] {
      InvIsSound(c);
      if Starting(c, events[0]).Some? {
        EveryStart(c, events[0]);
        StartIsClean(c, events[0]);
      }
      StepOk(c, events[0]);
      ConversationsSeeOnlyThePage(Apply(c, events[0]), events[1..]);
    }
  }

  lemma InvIsSound(c: Conversation)
    requires Inv(c)
    ensures Sound(c)
  {
  }

  lemma StartIsClean(c: Conversation, e: Event)
    requires Inv(c) && Enabled(c, e) && Starting(c, e).Some?
    ensures CleanStart(c, Starting(c, e).value.kind)
  {
    hide AttemptOk, TailsOk, TurnsOk, RowsOk, HeadClean;
    FreshIsClean(c);
  }

  // ----- When a lost cut shows -----

  /** The turn the conversation's session would be resumed after. */
  ghost function Head(c: Conversation): nat
    requires c.session.Some? && c.session.value in c.heads
  {
    c.heads[c.session.value]
  }

  /** What is the same of session and cuts in two states. */
  ghost predicate SameSession(c: Conversation, c': Conversation) {
    && c'.session == c.session && c'.dropped == c.dropped
    && |c.turns| <= |c'.turns| && c'.turns[..|c.turns|] == c.turns
    && (c.session.Some? ==> c.session.value in c.heads && c.session.value in c'.heads
                            && c'.heads[c.session.value] == c.heads[c.session.value])
  }

  /** The turn that was running, if any, is over: its reply saved or not. */
  ghost predicate Finishes(c: Conversation, finish: seq<Event>) {
    && AllEnabled(c, finish) && Run(c, finish).live.None?
    && forall k :: 0 <= k < |finish| ==> finish[k].Die? || finish[k].SaveReply?
  }

  /** A stranding step clears the last mark and leaves the session the cut was to change as it was. */
  lemma StrandingStep(c: Conversation, e: Event)
    requires Inv(c) && Enabled(c, e) && Strands(c, e)
    ensures SameSession(c, Apply(c, e)) && !AnyPending(Apply(c, e).rows) && c.session.Some?
  {
    hide AttemptOk, TailsOk, TurnsOk, RecordJoin, HeadClean, LiveClean, AnyPending;
    if e.FailToStart? {
      if e.reply.Some? {
        PendingAppend(c.rows, Apply(c, e).rows[|c.rows|]);
      }
    } else {
      JoinClears(c, c.live.value, |c.turns|);
    }
  }

  lemma {:induction false} FinishKeeps(c0: Conversation, c: Conversation, finish: seq<Event>)
    requires SameSession(c0, c) && !AnyPending(c.rows) && Finishes(c, finish)
    ensures SameSession(c0, Run(c, finish)) && !AnyPending(Run(c, finish).rows)
    decreases |finish|
  {
    hide AnyPending;
    if finish != [] {
      var c' := Apply(c, finish[0]);
      if finish[0].SaveReply? {
        PendingAppend(c.rows, c'.rows[|c.rows|]);
      }
      FinishKeeps(c0, c', finish[1..]);
    }
  }

  /** With nothing pending, a new message goes on with the session as it is. */
  lemma NothingPendingContinues(rows: seq<Row>, pivot: nat, session: Option<nat>)
    requires pivot < |rows| && !AnyPending(rows)
    ensures PlanTurn(rows, session, pivot, false).first == Attempt(Continue(session), [])
  {
    hide AnyPending;
  }

  /** A new message where nothing is pending sees only the page exactly when the session's head is clean. */
  lemma NextMessage(c: Conversation, text: string)
    requires Sound(c) && Enabled(c, Send(text)) && !AnyPending(c.rows) && c.session.Some?
    ensures c.session.value in c.heads && Head(c) < |c.turns|
    ensures var c' := Apply(c, Send(text));
            && c'.live.Some? && c'.live.value.pivot == |c.rows| < |c'.rows|
            && c'.live.value.plan.first == Attempt(Continue(c.session), [])
            && (SeesOnlyThePage(c', c'.live.value.plan.first, |c.rows|) <==> Clean(c, Head(c)))
  {
    hide PlanTurn, Trim, AnyPending, TurnsOk, TailsOk, RowsOk, Clean, SeesOnlyThePage, AttemptOk;
    var c' := Apply(c, Send(text));
    SendSound(c, text);
    PendingAppend(c.rows, c'.rows[|c.rows|]);
    NothingPendingContinues(c'.rows, |c.rows|, c.session);
    StartSees(c', c'.live.value.plan.first, |c.rows|);
    StaysClean(c, c', Head(c));
  }

  /**
   * After a step that lost a cut, once the running turn is over, the next message resumes the
   * session the cut did not reach. It sees only the page exactly when no cut had dropped a turn of
   * that session's history.
   */
  lemma StrandedMessage(c: Conversation, e: Event, finish: seq<Event>, text: string)
    requires Inv(c) && Enabled(c, e) && Strands(c, e) && Finishes(Apply(c, e), finish) && Trim(text) != ""
    ensures c.session.Some? && c.session.value in c.heads && Head(c) < |c.turns|
    ensures var over := Run(Apply(c, e), finish);
            && Enabled(over, Send(text))
            && var next := Apply(over, Send(text));
               && next.live.Some? && next.live.value.pivot < |next.rows|
               && next.live.value.plan.first == Attempt(Continue(c.session), [])
               && (SeesOnlyThePage(next, next.live.value.plan.first, next.live.value.pivot) <==> Clean(c, Head(c)))
  {
    hide Inv, Sound, Apply, Clean, SeesOnlyThePage, AnyPending, Trim;
    InvIsSound(c);
    StrandingStep(c, e);
    StepSound(c, e);
    FinishKeeps(c, Apply(c, e), finish);
    RunSound(Apply(c, e), finish);
    var over := Run(Apply(c, e), finish);
    HeadInTree(c);
    NextMessage(over, text);
    StaysClean(c, over, Head(c));
  }

  lemma HeadInTree(c: Conversation)
    requires Sound(c) && c.session.Some?
    ensures c.session.value in c.heads && Head(c) < |c.turns|
  {
  }

  /** The session's history holds a turn of row `k` or of a row below it. */
  ghost predicate HoldsRowFrom(c: Conversation, k: nat)
    requires c.session.Some? && c.session.value in c.heads && Head(c) < |c.turns|
  {
    exists u :: u in Chain(c.turns, Head(c)) && u < |c.turns| && IsRowFrom(c.rows, k, c.turns[u].row)
  }

  /** A cut drops turns of the session's history exactly when that holds the cut's row or a row below. */
  lemma CutReaches(c: Conversation, k: nat, text: string)
    requires Inv(c) && c.live.None? && !AnyPending(c.rows) && c.session.Some? && k < |c.rows|
    ensures c.session.value in c.heads && Head(c) < |c.turns|
    ensures Clean(CutBack(c, k, text), Head(c)) <==> !HoldsRowFrom(c, k)
  {
    hide TurnsOk, TailsOk, RowsOk, AnyPending, IsRowFrom;
    HeadInTree(c);
    ChainBounds(c.turns, Head(c));
  }

  /** A cut at row `k` of which only the dropped turns are left: what the message after losing it sees. */
  lemma CutNotTaken(
    c0: Conversation, k: nat, edited: string, c: Conversation, e: Event, finish: seq<Event>, text: string)
    requires Inv(c0) && c0.live.None? && !AnyPending(c0.rows) && c0.session.Some? && k < |c0.rows|
    requires c.turns == c0.turns && c.heads == c0.heads && c.session == c0.session
    requires c.dropped == CutBack(c0, k, edited).dropped
    requires Inv(c) && Enabled(c, e) && Strands(c, e) && Finishes(Apply(c, e), finish) && Trim(text) != ""
    ensures c0.session.value in c0.heads && Head(c0) < |c0.turns|
    ensures var over := Run(Apply(c, e), finish);
            && Enabled(over, Send(text))
            && var next := Apply(over, Send(text));
               && next.live.Some? && next.live.value.pivot < |next.rows|
               && (SeesOnlyThePage(next, next.live.value.plan.first, next.live.value.pivot) <==> !HoldsRowFrom(c0, k))
  {
    hide Inv, Apply, SeesOnlyThePage, AnyPending, Trim, HoldsRowFrom, Finishes;
    CutReaches(c0, k, edited);
    StrandedMessage(c, e, finish, text);
    SameClean(CutBack(c0, k, edited), c, Head(c0));
  }

  predicate IsCut(e: Event) { e.Edit? || e.Truncate? }

  /** No turn starts along the way. */
  predicate NoStart(events: seq<Event>) {
    forall i :: 0 <= i < |events| ==> !events[i].StartFirst? && !events[i].StartFallback?
  }

  function NextCut(k: nat, e: Event): nat {
    if IsCut(e) && e.row < k then e.row else k
  }

  /** The highest place on the page that any of the cuts goes back to, the first of them to row `k`. */
  function FarthestCut(k: nat, events: seq<Event>): nat {
    if events == [] then k else FarthestCut(NextCut(k, events[0]), events[1..])
  }

  /** Since `c0` the page was cut back as far as row `k`, and no turn started. */
  ghost predicate SinceCut(c0: Conversation, c: Conversation, k: nat) {
    && k < |c0.rows| && k < |c.rows|
    && c.turns == c0.turns && c.heads == c0.heads && c.session == c0.session
    && c.dropped == CutBack(c0, k, "").dropped && c.nextRow >= c0.nextRow
    && (forall i :: 0 <= i <= k ==> c.rows[i].id == c0.rows[i].id)
    && (forall i :: k < i < |c.rows| ==> c.rows[i].id >= c0.nextRow)
  }

  /** Turns of rows that are not yet on the page were dropped long ago, if there are any. */
  lemma NoTurnOfNewRow(c: Conversation, t: nat)
    requires Sound(c) && t < |c.turns| && c.turns[t].row >= c.nextRow
    ensures t in c.dropped
  {
    hide TailsOk, LiveOk, TreeOk, OnPage;
    assert TurnOk(c, t, |c.rows|);
  }

  /** A cut further on. */
  lemma CutAgain(c0: Conversation, c: Conversation, k: nat, row: nat, text: string)
    requires Sound(c0) && SinceCut(c0, c, k) && row < |c.rows|
    ensures SinceCut(c0, CutBack(c, row, text), if row < k then row else k)
  {
    hide Sound;
    var (c', m) := (CutBack(c, row, text), if row < k then row else k);
    forall t: nat
      ensures t in c'.dropped <==> t in CutBack(c0, m, "").dropped
    {
      if t < |c0.turns| {
        var id := c0.turns[t].row;
        if id >= c0.nextRow {
          NoTurnOfNewRow(c0, t);
        } else {
          RowsFrom(c0, c, k, row, id);
        }
      }
    }
  }

  lemma RowsFrom(c0: Conversation, c: Conversation, k: nat, row: nat, id: nat)
    requires SinceCut(c0, c, k) && row < |c.rows| && id < c0.nextRow
    ensures IsRowFrom(c.rows, row, id) || IsRowFrom(c0.rows, k, id)
            <==> IsRowFrom(c0.rows, if row < k then row else k, id)
  {
    if i :| row <= i < |c.rows| && c.rows[i].id == id {
      assert i <= k && c0.rows[i].id == id;
    }
    if i :| row <= i < |c0.rows| && c0.rows[i].id == id && i < k {
      assert c.rows[i].id == id;
    }
  }

  lemma StepSinceCut(c0: Conversation, c: Conversation, k: nat, e: Event)
    requires Sound(c0) && SinceCut(c0, c, k) && Enabled(c, e) && !e.StartFirst? && !e.StartFallback?
    ensures SinceCut(c0, Apply(c, e), NextCut(k, e))
  {
    hide Sound, PlanTurn, Trim, LastUser, AnyPending;
    if IsCut(e) {
      CutAgain(c0, c, k, e.row, if e.Edit? then e.text else c.rows[e.row].text);
    }
  }

  lemma {:induction false} RunSinceCut(c0: Conversation, c: Conversation, k: nat, events: seq<Event>)
    requires Sound(c0) && SinceCut(c0, c, k) && AllEnabled(c, events) && NoStart(events)
    ensures SinceCut(c0, Run(c, events), FarthestCut(k, events))
    decreases |events|
  {
    hide Sound, SinceCut, Apply, Enabled;
    if events != [] {
      StepSinceCut(c0, c, k, events[0]);
      RunSinceCut(c0, Apply(c, events[0]), NextCut(k, events[0]), events[1..]);
    }
  }

  lemma FirstCut(c0: Conversation, cut: Event)
    requires Inv(c0) && Enabled(c0, cut) && IsCut(cut)
    ensures SinceCut(c0, Apply(c0, cut), cut.row) && Inv(Apply(c0, cut))
  {
    hide Inv;
    StepOk(c0, cut);
  }

  lemma {:induction false} RunClean(c: Conversation, events: seq<Event>)
    requires Inv(c) && AllEnabled(c, events) && Unstranded(c, events)
    ensures Inv(Run(c, events))
    decreases |events|
  {
    hide Inv, Apply, Enabled, Strands;
    if events != [] {
      StepOk(c, events[0]);
      RunClean(Apply(c, events[0]), events[1..]);
    }
  }

  /**
   * So a lost cut can be told beforehand: the page is cut back, perhaps more than once, and nothing
   * starts until a step strands the cut. The message after that sees a turn the page no longer
   * shows exactly when the session, before the cuts, held a turn of the row they go back to or of
   * one below it.
   */
  lemma LostCut(
    c0: Conversation, cut: Event, between: seq<Event>, e: Event, finish: seq<Event>, text: string)
    requires Inv(c0) && c0.live.None? && !AnyPending(c0.rows) && c0.session.Some?
    requires Enabled(c0, cut) && IsCut(cut)
    requires AllEnabled(Apply(c0, cut), between) && NoStart(between) && Unstranded(Apply(c0, cut), between)
    requires var c := Run(Apply(c0, cut), between);
             Enabled(c, e) && Strands(c, e) && Finishes(Apply(c, e), finish)
    requires Trim(text) != ""
    ensures c0.session.value in c0.heads && Head(c0) < |c0.turns|
    ensures var over := Run(Apply(Run(Apply(c0, cut), between), e), finish);
            && Enabled(over, Send(text))
            && var next := Apply(over, Send(text));
               && next.live.Some? && next.live.value.pivot < |next.rows|
               && (SeesOnlyThePage(next, next.live.value.plan.first, next.live.value.pivot)
                   <==> !HoldsRowFrom(c0, FarthestCut(cut.row, between)))
  {
    hide Inv, Apply, SeesOnlyThePage, AnyPending, Trim, HoldsRowFrom, Finishes, Enabled, Strands, AllEnabled, NoStart,
      Unstranded, Run;
    InvIsSound(c0);
    FirstCut(c0, cut);
    RunSinceCut(c0, Apply(c0, cut), cut.row, between);
    RunClean(Apply(c0, cut), between);
    CutNotTaken(c0, FarthestCut(cut.row, between), "", Run(Apply(c0, cut), between), e, finish, text);
  }

  lemma SameClean(c: Conversation, c': Conversation, t: nat)
    requires t < |c.turns| && c.turns == c'.turns && c.dropped == c'.dropped
    ensures Clean(c, t) == Clean(c', t)
  {
  }

  // ----- Two conversations that lose a cut -----

  const ALL_SAVED := Saves(true, true)

  /** A message that starts its turn at once and is answered. */
  function ExchangeEvents(text: string): seq<Event> {
    [Send(text), StartFirst(ALL_SAVED), SaveReply("reply", true)]
  }

  /** Two exchanges, then an edit of the second message. */
  function EditEvents(first: string, second: string, edited: string): seq<Event> {
    ExchangeEvents(first) + (ExchangeEvents(second) + [Edit(2, edited)])
  }

  lemma {:induction false} RunAppend(c: Conversation, a: seq<Event>, b: seq<Event>)
    requires AllEnabled(c, a) && AllEnabled(Run(c, a), b)
    ensures AllEnabled(c, a + b) && Run(c, a + b) == Run(Run(c, a), b)
    decreases |a|
  {
    hide Enabled, Apply;
    if a == [] {
      assert a + b == b;
    } else {
      assert (a + b)[1..] == a[1..] + b;
      RunAppend(Apply(c, a[0]), a[1..], b);
    }
  }

  lemma RunNone(c: Conversation)
    ensures AllEnabled(c, []) && Run(c, []) == c
  {
  }

  lemma RunOne(c: Conversation, e: Event)
    requires Enabled(c, e)
    ensures AllEnabled(c, [e]) && Run(c, [e]) == Apply(c, e)
  {
    hide Enabled, Apply;
    assert [e][1..] == [];
  }

  lemma RunStep(c: Conversation, e: Event, rest: seq<Event>)
    requires Enabled(c, e) && AllEnabled(Apply(c, e), rest)
    ensures AllEnabled(c, [e] + rest) && Run(c, [e] + rest) == Run(Apply(c, e), rest)
  {
    hide Enabled, Apply;
    assert ([e] + rest)[1..] == rest;
  }

  /** What the page and the session hold after two exchanges and an edit of the second. */
  ghost predicate EditedConversation(c: Conversation) {
    && |c.rows| == 3 && c.live.None? && c.session == Some(0)
    && c.rows[0].role == User && c.rows[1].role == Assistant && c.rows[2].role == User
    && c.rows[1].session == Some(0) && c.rows[1].tail == Some(0) && c.rows[2].cutPending
    && |c.turns| == 2 && c.heads == map[0 := 1] && 1 in c.dropped
  }

  /** A message whose turn starts at once, on a page with no cut pending. */
  lemma Opening(c: Conversation, text: string)
    requires Inv(c) && c.live.None? && !AnyPending(c.rows) && Trim(text) != ""
    ensures Enabled(c, Send(text)) && Enabled(Apply(c, Send(text)), StartFirst(ALL_SAVED))
    ensures var c' := Apply(Apply(c, Send(text)), StartFirst(ALL_SAVED));
            && Inv(c') && !AnyPending(c'.rows)
            && var (n, t) := (|c.rows|, |c.turns|);
               && c'.live.Some? && c'.live.value.phase == Started(t) && c'.live.value.pivot == n
               && |c'.rows| == n + 1 && c'.rows[..n] == c.rows && c'.rows[n].role == User
               && |c'.turns| == t + 1 && c'.turns[t].row == c'.rows[n].id && c'.dropped == c.dropped
               && var sid := if c.session.Some? then c.session.value else t;
                  c'.session == Some(sid) && c'.heads == c.heads[sid := t] && c'.turns[t].session == sid
  {
    hide Trim, Inv, AnyPending, RecordJoin, PlanTurn;
    OpeningSend(c, text);
    OpeningStart(Apply(c, Send(text)));
  }

  lemma OpeningSend(c: Conversation, text: string)
    requires Inv(c) && c.live.None? && !AnyPending(c.rows) && Trim(text) != ""
    ensures Enabled(c, Send(text))
    ensures var c1 := Apply(c, Send(text));
            && Inv(c1) && !AnyPending(c1.rows) && |c1.rows| == |c.rows| + 1 && c1.rows[..|c.rows|] == c.rows
            && c1.rows[|c.rows|].role == User && c1.live.Some? && c1.live.value.phase == Planned
            && c1.live.value.pivot == |c.rows| && c1.live.value.plan.first == Attempt(Continue(c.session), [])
            && c1.turns == c.turns && c1.heads == c.heads && c1.session == c.session && c1.dropped == c.dropped
  {
    hide Trim, Inv, AnyPending, PlanTurn;
    var c1 := Apply(c, Send(text));
    StepOk(c, Send(text));
    PendingAppend(c.rows, c1.rows[|c.rows|]);
    NothingPendingContinues(c1.rows, |c.rows|, c.session);
  }

  lemma OpeningStart(c: Conversation)
    requires Inv(c) && !AnyPending(c.rows) && c.live.Some? && c.live.value.phase == Planned
    requires c.live.value.pivot == |c.rows| - 1 && c.rows[|c.rows| - 1].role == User
    requires c.live.value.plan.first == Attempt(Continue(c.session), [])
    ensures Enabled(c, StartFirst(ALL_SAVED))
    ensures var c' := Apply(c, StartFirst(ALL_SAVED));
            && Inv(c') && !AnyPending(c'.rows)
            && var (n, t) := (|c.rows| - 1, |c.turns|);
               && c'.live.Some? && c'.live.value.phase == Started(t) && c'.live.value.pivot == n
               && |c'.rows| == n + 1 && c'.rows[..n] == c.rows[..n] && c'.rows[n].role == User
               && |c'.turns| == t + 1 && c'.turns[t].row == c'.rows[n].id && c'.dropped == c.dropped
               && var sid := if c.session.Some? then c.session.value else t;
                  c'.session == Some(sid) && c'.heads == c.heads[sid := t] && c'.turns[t].session == sid
  {
    hide Inv, AnyPending, RecordJoin;
    var n := |c.rows| - 1;
    InvIsSound(c);
    SoundIsShaped(c);
    StepOk(c, StartFirst(ALL_SAVED));
    LiveRowsOk(c);
    JoinClears(c, c.live.value, |c.turns|);
    RecordJoinSame(c.rows, n, |c.turns|);
    NothingToClear(c.rows, n, |c.turns|);
  }

  lemma LiveRowsOk(c: Conversation)
    requires Inv(c) && c.live.Some?
    ensures RowsOk(c) && LiveOk(c, c.live.value)
  {
  }

  /** Where nothing is pending, recording a join touches only its own row. */
  lemma NothingToClear(rows: seq<Row>, pivot: nat, turn: nat)
    requires pivot < |rows| && !AnyPending(rows)
    ensures RecordJoin(rows, pivot, turn)[..pivot] == rows[..pivot]
  {
  }

  lemma Exchange(c: Conversation, text: string)
    requires Inv(c) && c.live.None? && !AnyPending(c.rows) && Trim(text) != ""
    ensures AllEnabled(c, ExchangeEvents(text))
    ensures var c' := Run(c, ExchangeEvents(text));
            && Inv(c') && c'.live.None? && !AnyPending(c'.rows)
            && var (n, t) := (|c.rows|, |c.turns|);
               && |c'.rows| == n + 2 && c'.rows[..n] == c.rows
               && c'.rows[n].role == User && c'.rows[n + 1].role == Assistant
               && |c'.turns| == t + 1 && c'.turns[t].row == c'.rows[n].id && c'.dropped == c.dropped
               && var sid := if c.session.Some? then c.session.value else t;
                  && c'.session == Some(sid) && c'.heads == c.heads[sid := t]
                  && c'.rows[n + 1].session == Some(sid) && c'.rows[n + 1].tail == Some(t)
  {
    hide Trim, Inv, AnyPending, Run, AllEnabled, Begin, PlanTurn, CutBack;
    Opening(c, text);
    var c1 := Apply(c, Send(text));
    var c2 := Apply(c1, StartFirst(ALL_SAVED));
    var reply := SaveReply("reply", true);
    var c' := Apply(c2, reply);
    StepOk(c2, reply);
    PendingAppend(c2.rows, c'.rows[|c2.rows|]);
    RunOne(c2, reply);
    RunStep(c1, StartFirst(ALL_SAVED), [reply]);
    RunStep(c, Send(text), [StartFirst(ALL_SAVED)] + [reply]);
    assert ExchangeEvents(text) == [Send(text)] + ([StartFirst(ALL_SAVED)] + [reply]);
  }

  /** A page of two exchanges in one session. */
  ghost predicate TwoExchanges(c: Conversation) {
    && |c.rows| == 4 && c.live.None? && c.session == Some(0)
    && c.rows[0].role == User && c.rows[1].role == Assistant && c.rows[2].role == User
    && c.rows[1].session == Some(0) && c.rows[1].tail == Some(0)
    && |c.turns| == 2 && c.heads == map[0 := 1] && c.turns[1].row == c.rows[2].id
  }

  lemma EditSecond(c: Conversation, edited: string)
    requires Inv(c) && TwoExchanges(c)
    ensures AllEnabled(c, [Edit(2, edited)])
    ensures EditedConversation(Run(c, [Edit(2, edited)])) && Inv(Run(c, [Edit(2, edited)]))
  {
    hide Inv;
    StepOk(c, Edit(2, edited));
    RunOne(c, Edit(2, edited));
    assert IsRowFrom(c.rows, 2, c.turns[1].row);
  }

  lemma ExchangeTwice(first: string, second: string)
    requires Trim(first) != "" && Trim(second) != ""
    ensures AllEnabled(NEW_CONVERSATION, ExchangeEvents(first))
    ensures var c1 := Run(NEW_CONVERSATION, ExchangeEvents(first));
            && AllEnabled(c1, ExchangeEvents(second))
            && TwoExchanges(Run(c1, ExchangeEvents(second))) && Inv(Run(c1, ExchangeEvents(second)))
  {
    hide Trim, Inv, ExchangeEvents, Run, AllEnabled;
    NewConversationOk();
    Exchange(NEW_CONVERSATION, first);
    var c1 := Run(NEW_CONVERSATION, ExchangeEvents(first));
    Exchange(c1, second);
    var c2 := Run(c1, ExchangeEvents(second));
    assert c2.rows[0] == c2.rows[..2][0] && c2.rows[1] == c2.rows[..2][1];
  }

  /** Two exchanges and an edit of the second message, from a new conversation on. */
  lemma EditExample(first: string, second: string, edited: string)
    requires Trim(first) != "" && Trim(second) != ""
    ensures AllEnabled(NEW_CONVERSATION, EditEvents(first, second, edited))
    ensures var c := Run(NEW_CONVERSATION, EditEvents(first, second, edited)); EditedConversation(c) && Inv(c)
  {
    hide Trim, Inv, ExchangeEvents, Run, AllEnabled, TwoExchanges, EditedConversation;
    ExchangeTwice(first, second);
    var c1 := Run(NEW_CONVERSATION, ExchangeEvents(first));
    var c2 := Run(c1, ExchangeEvents(second));
    EditSecond(c2, edited);
    RunAppend(c1, ExchangeEvents(second), [Edit(2, edited)]);
    RunAppend(NEW_CONVERSATION, ExchangeEvents(first), ExchangeEvents(second) + [Edit(2, edited)]);
  }

  /** The turn after the edit is to resume the session from the reply above, or start afresh. */
  lemma RegenerateForks(c: Conversation)
    requires EditedConversation(c)
    ensures LastUser(c.rows) == Some(2) && AnyPending(c.rows)
    ensures var plan := PlanTurn(c.rows, c.session, 2, true); plan.fallback.Some? && plan.fallback.value.kind == Fresh
  {
    hide Spoken, UnansweredTail, IsSlashCommand;
    assert c.rows[..2][1] == c.rows[1];
    assert LastAssistant(c.rows[..2]) == Some(1);
  }

  /** From the edited conversation, a step that strands the cut makes the next message see the dropped turn. */
  lemma AfterEdit(c: Conversation, announced: bool, e: Event, finish: seq<Event>, text: string)
    requires EditedConversation(c) && Inv(c) && Trim(text) != ""
    requires (announced && e == FailToStart(None)) || (!announced && e == StartFallback(Saves(false, true)))
    requires finish == if announced then [] else [SaveReply("reply", true)]
    ensures var events := [Regenerate] + ([Refuse(announced)] + ([e] + (finish + [Send(text)])));
            && AllEnabled(c, events)
            && var next := Run(c, events);
               && next.live.Some? && next.live.value.pivot < |next.rows|
               && !SeesOnlyThePage(next, next.live.value.plan.first, next.live.value.pivot)
  {
    hide PlanTurn, Trim, Inv, RecordJoin, SeesOnlyThePage, AnyPending, Run, AllEnabled, CutBack, LastUser;
    RegenerateForks(c);
    InvIsSound(c);
    SoundIsShaped(c);
    StepOk(c, Regenerate);
    var c1 := Apply(c, Regenerate);
    StepOk(c1, Refuse(announced));
    var c2 := Apply(c1, Refuse(announced));
    InvIsSound(c2);
    SoundIsShaped(c2);
    RecordJoinSame(c1.rows, 2, |c1.turns|);
    var c3 := Apply(c2, e);
    assert Strands(c2, e);
    StepSound(c2, e);
    SoundIsShaped(c3);
    if announced {
      RunNone(c3);
    } else {
      RunOne(c3, finish[0]);
    }
    assert Finishes(c3, finish);
    StrandedMessage(c2, e, finish, text);
    var over := Run(c3, finish);
    RunOne(over, Send(text));
    RunAppend(c3, finish, [Send(text)]);
    RunStep(c2, e, finish + [Send(text)]);
    RunStep(c1, Refuse(announced), [e] + (finish + [Send(text)]));
    RunStep(c, Regenerate, [Refuse(announced)] + ([e] + (finish + [Send(text)])));
    assert 1 in Chain(c2.turns, 1);
  }

  /**
   * A real lost cut: two exchanges, an edit of the second message, a regenerate whose first attempt
   * is refused after announcing its session and whose fallback never starts. The next message
   * resumes the unedited session and sees the dropped turn.
   */
  lemma StrandedExample(first: string, second: string, edited: string, text: string)
    requires Trim(first) != "" && Trim(second) != "" && Trim(text) != ""
    ensures var events := EditEvents(first, second, edited)
                          + ([Regenerate] + ([Refuse(true)] + ([FailToStart(None)] + ([] + [Send(text)]))));
            && AllEnabled(NEW_CONVERSATION, events)
            && var next := Run(NEW_CONVERSATION, events);
               && next.live.Some? && next.live.value.pivot < |next.rows|
               && !SeesOnlyThePage(next, next.live.value.plan.first, next.live.value.pivot)
  {
    hide Trim, Inv, Run, AllEnabled, SeesOnlyThePage, EditedConversation, EditEvents;
    EditExample(first, second, edited);
    var c := Run(NEW_CONVERSATION, EditEvents(first, second, edited));
    AfterEdit(c, true, FailToStart(None), [], text);
    RunAppend(NEW_CONVERSATION, EditEvents(first, second, edited),
              [Regenerate] + ([Refuse(true)] + ([FailToStart(None)] + ([] + [Send(text)]))));
  }

  /**
   * Another: the refused attempt announced nothing, the fallback starts and is answered, its join is
   * saved and its session is not.
   */
  lemma LostSessionExample(first: string, second: string, edited: string, text: string)
    requires Trim(first) != "" && Trim(second) != "" && Trim(text) != ""
    ensures var events := EditEvents(first, second, edited)
                          + ([Regenerate] + ([Refuse(false)] + ([StartFallback(Saves(false, true))]
                             + ([SaveReply("reply", true)] + [Send(text)]))));
            && AllEnabled(NEW_CONVERSATION, events)
            && var next := Run(NEW_CONVERSATION, events);
               && next.live.Some? && next.live.value.pivot < |next.rows|
               && !SeesOnlyThePage(next, next.live.value.plan.first, next.live.value.pivot)
  {
    hide Trim, Inv, Run, AllEnabled, SeesOnlyThePage, EditedConversation, EditEvents;
    EditExample(first, second, edited);
    var c := Run(NEW_CONVERSATION, EditEvents(first, second, edited));
    AfterEdit(c, false, StartFallback(Saves(false, true)), [SaveReply("reply", true)], text);
    RunAppend(NEW_CONVERSATION, EditEvents(first, second, edited),
              [Regenerate] + ([Refuse(false)] + ([StartFallback(Saves(false, true))]
                + ([SaveReply("reply", true)] + [Send(text)]))));
  }
}
