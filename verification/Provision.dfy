/**
 * How an instance gets its owner: any number of callers, each a few statements that decide
 * atomically, run at the same time on a table that can hold one row.
 */
module Provision {
  import opened Text
  import opened Wrappers

  const DEFAULT_OWNER_USERNAME := "owner"
  const DEFAULT_OWNER_NAME := "Owner"
  const MIN_PASSWORD_LENGTH := 8

  datatype Row = Row(id: int, name: string, username: string, passwordHash: Option<string>)

  /** The users table and the open sessions, each with the password hash its visitor signed in against. */
  datatype Db = Db(row: Option<Row>, sessions: map<int, string>)

  /** One call: what was asked, and the hash and the row id it would write. */
  datatype Call = Call(
    name: Option<string>, username: Option<string>, password: string, overwrite: bool, passwordHash: string, newId: int)

  datatype Outcome =
    | Provisioned(userId: int, created: bool, passwordSet: bool)
    | PasswordTooShort
    | BadUsername
    | NoOwner

  /** The statement a call does next. */
  datatype Pc = Check | Claim | EndSessions(userId: int, created: bool) | Insert | Reset | Find | Done(outcome: Outcome)

  // ----- Input -----

  predicate UsernameChar(c: char) {
    'a' <= c <= 'z' || 'A' <= c <= 'Z' || '0' <= c <= '9' || c == '_' || c == '-'
  }

  predicate ValidUsername(s: string) {
    3 <= |s| <= 32 && forall i :: 0 <= i < |s| ==> UsernameChar(s[i])
  }

  /** What was given, trimmed; blank is not given. */
  function Given(s: Option<string>): Option<string> {
    match s
    case None => None
    case Some(t) => if Trim(t) == "" then None else Some(Trim(t))
  }

  /** Why a call is refused before it writes. */
  function Refusal(c: Call): Option<Outcome> {
    if |c.password| < MIN_PASSWORD_LENGTH then Some(PasswordTooShort)
    else if Given(c.username).Some? && !ValidUsername(Given(c.username).value) then Some(BadUsername)
    else None
  }

  // ----- One statement -----

  predicate HasOwner(db: Db) { db.row.Some? && db.row.value.passwordHash.Some? }

  /** The claimed row, with only the names the caller gave. */
  function ClaimedRow(row: Row, c: Call): Row {
    row.(passwordHash := Some(c.passwordHash),
         name := Given(c.name).GetOr(row.name),
         username := Given(c.username).GetOr(row.username))
  }

  function NewRow(c: Call): Row {
    Row(c.newId, Given(c.name).GetOr(DEFAULT_OWNER_NAME), Given(c.username).GetOr(DEFAULT_OWNER_USERNAME),
        Some(c.passwordHash))
  }

  function FirstWrite(c: Call): Pc {
    match Refusal(c)
    case Some(outcome) => Done(outcome)
    case None => Claim
  }

  /** A call does its next statement. */
  function Step(db: Db, pc: Pc, c: Call): (Db, Pc) {
    match pc
    case Check =>
      if !c.overwrite && HasOwner(db) then (db, Done(Provisioned(db.row.value.id, false, false)))
      else (db, FirstWrite(c))
    case Claim =>
      if db.row.Some? && db.row.value.passwordHash.None?
      then (db.(row := Some(ClaimedRow(db.row.value, c))), EndSessions(db.row.value.id, true))
      else (db, Insert)
    case EndSessions(userId, created) => (db.(sessions := map[]), Done(Provisioned(userId, created, true)))
    case Insert =>
      if db.row.None? then (db.(row := Some(NewRow(c))), Done(Provisioned(c.newId, true, true)))
      else (db, if c.overwrite then Reset else Find)
    case Reset =>
      if db.row.Some?
      then (db.(row := Some(db.row.value.(passwordHash := Some(c.passwordHash)))), EndSessions(db.row.value.id, false))
      else (db, Find)
    case Find => (db, Done(if HasOwner(db) then Provisioned(db.row.value.id, false, false) else NoOwner))
    case Done(_) => (db, pc)
  }

  /** Statements a call may still do. */
  function StepsLeft(pc: Pc): nat {
    match pc
    case Check => 5
    case Claim => 4
    case Insert => 3
    case Reset => 2
    case EndSessions(_, _) => 1
    case Find => 1
    case Done(_) => 0
  }

  /** A call run with nothing else going on. */
  function Alone(db: Db, pc: Pc, c: Call): (Db, Outcome)
    decreases StepsLeft(pc)
  {
    if pc.Done? then (db, pc.outcome)
    else
      var (db', pc') := Step(db, pc, c);
      Alone(db', pc', c)
  }

  /** The table, and `provisionOwner` as a caller runs it that nobody interrupts. */
  class Users {
    var row: Option<Row>
    var sessions: map<int, string>

    ghost function State(): Db
      reads this
    {
      Db(row, sessions)
    }

    method FindOwnerId() returns (id: Option<int>)
      ensures id == if HasOwner(State()) then Some(row.value.id) else None
    {
      if row.Some? && row.value.passwordHash.Some? {
        return Some(row.value.id);
      }
      return None;
    }

    method EndSessionsOf(userId: int)
      modifies this`sessions
      ensures sessions == map[]
    {
      sessions := map[];
    }

    method ProvisionOwner(c: Call) returns (outcome: Outcome)
      modifies this
      ensures (State(), outcome) == Alone(old(State()), Check, c)
    {
      hide Given, ValidUsername;
      if !c.overwrite {
        var existing := FindOwnerId();
        if existing.Some? {
          return Provisioned(existing.value, false, false);
        }
      }
      if |c.password| < MIN_PASSWORD_LENGTH {
        return PasswordTooShort;
      }
      var name, username := Given(c.name), Given(c.username);
      if username.Some? && !ValidUsername(username.value) {
        return BadUsername;
      }
      assert Alone(State(), Check, c) == Alone(State(), Claim, c);
      if row.Some? && row.value.passwordHash.None? {
        row := Some(Row(row.value.id, name.GetOr(row.value.name), username.GetOr(row.value.username),
                        Some(c.passwordHash)));
        assert Alone(old(State()), Claim, c) == Alone(State(), EndSessions(row.value.id, true), c);
        EndSessionsOf(row.value.id);
        return Provisioned(row.value.id, true, true);
      }
      assert Alone(State(), Claim, c) == Alone(State(), Insert, c);
      if row.None? {
        row := Some(Row(c.newId, name.GetOr(DEFAULT_OWNER_NAME), username.GetOr(DEFAULT_OWNER_USERNAME),
                        Some(c.passwordHash)));
        return Provisioned(c.newId, true, true);
      }
      if c.overwrite {
        assert Alone(State(), Insert, c) == Alone(State(), Reset, c);
        row := Some(row.value.(passwordHash := Some(c.passwordHash)));
        assert Alone(old(State()), Reset, c) == Alone(State(), EndSessions(row.value.id, false), c);
        EndSessionsOf(row.value.id);
        return Provisioned(row.value.id, false, true);
      }
      var found := FindOwnerId();
      outcome := match found case None => NoOwner case Some(id) => Provisioned(id, false, false);
    }
  }

  // ----- Many calls at once -----

  /**
   * The table, the calls, the visitors between looking up the password and opening their session,
   * and the sessions opened after the password they were checked against had been replaced.
   */
  datatype World = World(db: Db, calls: seq<Call>, pcs: seq<Pc>, pending: map<int, string>, late: set<int>)

  /** Who goes next: a call, a visitor who signs in or is welcomed by the setup, or one who leaves. */
  datatype Turn =
    | Caller(i: nat)
    | LookUp(token: int)
    | Welcome(i: nat, token: int)
    | Open(token: int)
    | SignOut(token: int)

  predicate Shaped(w: World) { |w.calls| == |w.pcs| }

  /** Caller `i` does its next statement. */
  function Act(w: World, i: nat): World
    requires Shaped(w)
    ensures Shaped(Act(w, i))
  {
    if i >= |w.calls| then w
    else
      var (db, pc) := Step(w.db, w.pcs[i], w.calls[i]);
      w.(db := db, pcs := w.pcs[i := pc], late := if w.pcs[i].EndSessions? then {} else w.late)
  }

  function Stored(db: Db): Option<string> {
    if db.row.None? then None else db.row.value.passwordHash
  }

  /** A visitor looks the password up, or has just set it; opens a session later; and may sign out. */
  function Visit(w: World, turn: Turn): World
    requires Shaped(w) && !turn.Caller?
    ensures Visit(w, turn).calls == w.calls && Visit(w, turn).pcs == w.pcs && Visit(w, turn).db.row == w.db.row
  {
    match turn
    case LookUp(t) => if HasOwner(w.db) then w.(pending := w.pending[t := Stored(w.db).value]) else w
    case Welcome(i, t) =>
      if i < |w.pcs| && w.pcs[i].Done? && Created(w.pcs[i])
      then w.(pending := w.pending[t := w.calls[i].passwordHash]) else w
    case Open(t) =>
      if t !in w.pending then w
      else
        w.(db := w.db.(sessions := w.db.sessions[t := w.pending[t]]),
           pending := w.pending - {t},
           late := if Stored(w.db) == Some(w.pending[t]) then w.late - {t} else w.late + {t})
    case SignOut(t) => w.(db := w.db.(sessions := w.db.sessions - {t}), late := w.late - {t})
  }

  function Move(w: World, turn: Turn): (r: World)
    requires Shaped(w)
    ensures Shaped(r) && r.calls == w.calls
  {
    if turn.Caller? then Act(w, turn.i) else Visit(w, turn)
  }

  /** Calls and visitors take turns in any order. */
  function Run(w: World, turns: seq<Turn>): (r: World)
    requires Shaped(w)
    ensures Shaped(r) && r.calls == w.calls
    decreases |turns|
  {
    if turns == [] then w else Run(Move(w, turns[0]), turns[1..])
  }

  function Start(db: Db, calls: seq<Call>): World {
    World(db, calls, seq(|calls|, _ => Check), map[], {})
  }

  /** The call has given the instance its owner. */
  predicate Created(pc: Pc) {
    (pc.EndSessions? && pc.created) || (pc.Done? && pc.outcome.Provisioned? && pc.outcome.created)
  }

  /** The call has written a password hash. */
  predicate Wrote(pc: Pc) {
    pc.EndSessions? || (pc.Done? && pc.outcome.Provisioned? && pc.outcome.passwordSet)
  }

  /** What holds of each call: where it stands says what it has found out. */
  ghost predicate CallInv(w: World, i: nat, owned: bool)
    requires Shaped(w) && i < |w.pcs|
  {
    var pc, c := w.pcs[i], w.calls[i];
    && (pc.Insert? ==> w.db.row.None? || HasOwner(w.db))
    && (pc.Reset? ==> HasOwner(w.db) && c.overwrite)
    && (pc.Find? ==> HasOwner(w.db) && !c.overwrite)
    && (pc.EndSessions? ==> HasOwner(w.db) && pc.userId == w.db.row.value.id && (!pc.created ==> c.overwrite))
    && (pc.Done? && pc.outcome.Provisioned? ==>
          && HasOwner(w.db) && pc.outcome.userId == w.db.row.value.id
          && (pc.outcome.created ==> pc.outcome.passwordSet)
          && (pc.outcome.passwordSet && !pc.outcome.created ==> c.overwrite))
    && (pc.Done? && !pc.outcome.Provisioned? ==> Refusal(c) == Some(pc.outcome))
    && (Created(pc) ==> !owned)
    && (pc != Check && !pc.Done? ==> Refusal(c).None?)
  }

  /** The stored hash is that of a call that says it wrote one. */
  ghost predicate HashIsFrom(w: World, i: nat)
    requires Shaped(w)
  {
    i < |w.pcs| && Wrote(w.pcs[i]) && w.db.row.Some? && w.db.row.value.passwordHash == Some(w.calls[i].passwordHash)
  }

  /** `first` is the state the calls met, `winner` the call that gave it an owner. */
  ghost predicate Inv(w: World, first: Db, winner: Option<nat>) {
    && Shaped(w)
    && (forall i: nat :: i < |w.pcs| ==> CallInv(w, i, HasOwner(first)))
    && (forall i: nat :: i < |w.pcs| ==> (Created(w.pcs[i]) <==> winner == Some(i)))
    && (winner.Some? ==> winner.value < |w.pcs|)
    && (HasOwner(w.db) <==> HasOwner(first) || winner.Some?)
    && (!HasOwner(w.db) ==> w.db.row == first.row)
    && (first.row.Some? ==> w.db.row.Some? && w.db.row.value.id == first.row.value.id)
    && ((exists i: nat :: HashIsFrom(w, i)) || (winner.None? && w.db.row == first.row))
  }

  lemma StartInv(db: Db, calls: seq<Call>)
    ensures Inv(Start(db, calls), db, None)
  {
  }

  /** The winner after caller `i` acts. */
  ghost function NewWinner(w: World, i: nat, winner: Option<nat>): Option<nat>
    requires Shaped(w)
  {
    if i < |w.pcs| && Created(Act(w, i).pcs[i]) then Some(i) else winner
  }

  /** A statement keeps the row there is, and the owner there is; what it changes has an owner. */
  lemma RowStays(db: Db, pc: Pc, c: Call)
    ensures var db' := Step(db, pc, c).0;
            && (db'.row == db.row || HasOwner(db'))
            && (db.row.Some? ==> db'.row.Some? && db'.row.value.id == db.row.value.id)
            && (HasOwner(db) ==> HasOwner(db'))
  {
    hide Refusal, Given;
  }

  lemma OwnStep(w: World, i: nat, owned: bool)
    requires Shaped(w) && i < |w.pcs| && CallInv(w, i, owned)
    requires owned ==> HasOwner(w.db)
    ensures CallInv(Act(w, i), i, owned)
  {
    hide Refusal, Given;
    RefusalIsRefusal(w.calls[i]);
  }

  lemma OtherStep(w: World, i: nat, j: nat, owned: bool)
    requires Shaped(w) && j < |w.pcs| && i != j && CallInv(w, j, owned)
    ensures CallInv(Act(w, i), j, owned)
  {
    hide Refusal, Given, Step;
    if i < |w.pcs| {
      RowStays(w.db, w.pcs[i], w.calls[i]);
      assert Act(w, i).pcs[j] == w.pcs[j];
    }
  }

  /** Once an owner is created, no other call creates one; a call that did never undoes it. */
  lemma CreatedOnce(db: Db, pc: Pc, c: Call)
    requires pc.Reset? ==> HasOwner(db)
    ensures var (db', pc') := Step(db, pc, c);
            && (Created(pc) ==> Created(pc'))
            && (Created(pc') && !Created(pc) ==> !HasOwner(db) && HasOwner(db'))
            && (HasOwner(db') && !HasOwner(db) ==> Created(pc'))
            && (Wrote(pc) ==> Wrote(pc'))
            && (db'.row != db.row ==> Wrote(pc') && db'.row.Some? && db'.row.value.passwordHash == Some(c.passwordHash))
            && (!HasOwner(db') && !pc.EndSessions? ==> db'.row == db.row)
  {
    hide Refusal, Given;
    RefusalIsRefusal(c);
  }

  lemma ActOk(w: World, i: nat, first: Db, winner: Option<nat>)
    requires Inv(w, first, winner)
    ensures Inv(Act(w, i), first, NewWinner(w, i, winner))
  {
    hide Refusal, Step, Created, Wrote, CallInv;
    if i < |w.pcs| {
      var w' := Act(w, i);
      WhereItStands(w, i, HasOwner(first));
      RowStays(w.db, w.pcs[i], w.calls[i]);
      CreatedOnce(w.db, w.pcs[i], w.calls[i]);
      OwnStep(w, i, HasOwner(first));
      forall j: nat | j < |w.pcs| && j != i ensures CallInv(w', j, HasOwner(first)) {
        OtherStep(w, i, j, HasOwner(first));
      }
      if w'.db.row != w.db.row {
        assert HashIsFrom(w', i);
      } else if j: nat :| HashIsFrom(w, j) {
        assert HashIsFrom(w', j);
      }
    }
  }

  lemma WhereItStands(w: World, i: nat, owned: bool)
    requires Shaped(w) && i < |w.pcs| && CallInv(w, i, owned)
    ensures w.pcs[i].EndSessions? || w.pcs[i].Reset? ==> HasOwner(w.db)
    ensures Wrote(w.pcs[i]) && !w.calls[i].overwrite ==> Created(w.pcs[i])
    ensures Created(w.pcs[i]) ==> !owned
    ensures w.pcs[i].Done? ==>
              if w.pcs[i].outcome.Provisioned? then HasOwner(w.db) && w.pcs[i].outcome.userId == w.db.row.value.id
              else Refusal(w.calls[i]) == Some(w.pcs[i].outcome)
  {
  }

  /** Visitors do not touch the table. */
  lemma VisitOk(w: World, turn: Turn, first: Db, winner: Option<nat>)
    requires Inv(w, first, winner) && !turn.Caller?
    ensures Inv(Visit(w, turn), first, winner)
  {
    hide Refusal, Created, Wrote, Visit;
    if j: nat :| HashIsFrom(w, j) {
      assert HashIsFrom(Visit(w, turn), j);
    }
    assert forall i: nat :: i < |w.pcs| && CallInv(w, i, HasOwner(first)) ==>
             CallInv(Visit(w, turn), i, HasOwner(first));
  }

  /**
   * Any callers, any interleaving: every reachable state has the invariant for some winner.
   */
  lemma {:induction false} RunOk(w: World, turns: seq<Turn>, first: Db, winner: Option<nat>) returns (last: Option<nat>)
    requires Inv(w, first, winner)
    ensures Inv(Run(w, turns), first, last)
    decreases |turns|
  {
    hide Inv, Act, Visit;
    last := winner;
    if turns != [] {
      InvShape(w, first, winner);
      if turns[0].Caller? {
        ActOk(w, turns[0].i, first, winner);
        last := RunOk(Act(w, turns[0].i), turns[1..], first, NewWinner(w, turns[0].i, winner));
      } else {
        VisitOk(w, turns[0], first, winner);
        last := RunOk(Visit(w, turns[0]), turns[1..], first, winner);
      }
    }
  }

  lemma InvShape(w: World, first: Db, winner: Option<nat>)
    requires Inv(w, first, winner)
    ensures Shaped(w)
  {
  }

  /**
   * Once every call has returned: an instance that had no owner got exactly one creator if any
   * call was acceptable, an instance that had one got none; every call that was not refused
   * reports the one row's id, and none reports that no owner could be made.
   */
  lemma ExactlyOneCreates(db: Db, calls: seq<Call>, turns: seq<Turn>)
    requires forall i :: 0 <= i < |calls| ==> Run(Start(db, calls), turns).pcs[i].Done?
    ensures var w := Run(Start(db, calls), turns);
            && (forall i, j :: 0 <= i < |calls| && 0 <= j < |calls| && Created(w.pcs[i]) && Created(w.pcs[j]) ==>
                  i == j)
            && ((exists i :: 0 <= i < |calls| && Created(w.pcs[i]))
                <==> !HasOwner(db) && exists i :: 0 <= i < |calls| && Refusal(calls[i]).None?)
            && (forall i :: 0 <= i < |calls| ==>
                  if w.pcs[i].outcome.Provisioned?
                  then HasOwner(w.db) && w.pcs[i].outcome.userId == w.db.row.value.id
                  else Refusal(calls[i]) == Some(w.pcs[i].outcome))
  {
    hide Refusal, Step, CallInv;
    StartInv(db, calls);
    var winner := RunOk(Start(db, calls), turns, db, None);
    var w := Run(Start(db, calls), turns);
    forall i: nat | i < |calls|
      ensures if w.pcs[i].outcome.Provisioned? then HasOwner(w.db) && w.pcs[i].outcome.userId == w.db.row.value.id
              else Refusal(calls[i]) == Some(w.pcs[i].outcome)
    {
      WhereItStands(w, i, HasOwner(db));
    }
    if !HasOwner(db) && exists i :: 0 <= i < |calls| && Refusal(calls[i]).None? {
      var i :| 0 <= i < |calls| && Refusal(calls[i]).None?;
      assert w.pcs[i].outcome.Provisioned?;
      assert Created(w.pcs[winner.value]);
    }
    if i :| 0 <= i < |calls| && Created(w.pcs[i]) {
      WhereItStands(w, i, HasOwner(db));
      RefusedNeverWrite(Start(db, calls), turns, i);
    }
  }

  /** A call that is to be refused never gets as far as a write. */
  lemma {:induction false} RefusedNeverWrite(w: World, turns: seq<Turn>, i: nat)
    requires Shaped(w) && i < |w.calls|
    requires Refusal(w.calls[i]).Some? ==>
               !Wrote(w.pcs[i]) && !Created(w.pcs[i]) && (w.pcs[i].Check? || w.pcs[i].Done?)
    ensures Refusal(w.calls[i]).Some? ==> !Wrote(Run(w, turns).pcs[i]) && !Created(Run(w, turns).pcs[i])
    decreases |turns|
  {
    hide Refusal, Visit;
    if turns != [] {
      RefusalIsRefusal(w.calls[i]);
      RefusedNeverWrite(Move(w, turns[0]), turns[1..], i);
    }
  }

  lemma RefusalIsRefusal(c: Call)
    ensures Refusal(c).Some? ==> !Refusal(c).value.Provisioned?
  {
  }

  /**
   * The stored password is that of a call that reports it was set; when no call may overwrite, it
   * is the creator's, and an owner the calls met is left as it was.
   */
  lemma PasswordIsTheCreators(db: Db, calls: seq<Call>, turns: seq<Turn>)
    requires forall i :: 0 <= i < |calls| ==> !calls[i].overwrite
    ensures var w := Run(Start(db, calls), turns);
            && (HasOwner(db) ==> w.db.row == db.row)
            && (forall i :: 0 <= i < |calls| && Created(w.pcs[i]) ==>
                  w.db.row.Some? && w.db.row.value.passwordHash == Some(calls[i].passwordHash))
  {
    hide Refusal, Step, CallInv;
    StartInv(db, calls);
    var winner := RunOk(Start(db, calls), turns, db, None);
    var w := Run(Start(db, calls), turns);
    if j: nat :| HashIsFrom(w, j) {
      WhereItStands(w, j, HasOwner(db));
      assert Created(w.pcs[j]);
    }
  }

  /** With or without overwriting, what is stored is what some call wrote, or nothing was written. */
  lemma StoredPassword(db: Db, calls: seq<Call>, turns: seq<Turn>)
    ensures var w := Run(Start(db, calls), turns);
            w.db.row == db.row || exists i: nat :: HashIsFrom(w, i)
  {
    hide Refusal, Step, CallInv;
    StartInv(db, calls);
    var winner := RunOk(Start(db, calls), turns, db, None);
  }

  // ----- What the owner is called -----

  /** A call is acceptable with a password of eight characters and, if it names one, a plain username of 3 to 32. */
  lemma Acceptable(c: Call)
    ensures Refusal(c).None? <==>
              && |c.password| >= 8
              && (c.username.Some? && Trim(c.username.value) != "" ==>
                    var name := Trim(c.username.value);
                    3 <= |name| <= 32
                    && forall i :: 0 <= i < |name| ==>
                         || '0' <= name[i] <= '9' || 'A' <= name[i] <= 'Z' || 'a' <= name[i] <= 'z'
                         || name[i] in {'_', '-'})
    ensures |c.password| < 8 ==> Refusal(c) == Some(PasswordTooShort)
  {
  }

  /** What a caller gave, trimmed, or else what there was. */
  function Chosen(given: Option<string>, otherwise: string): string {
    if given.Some? && Trim(given.value) != "" then Trim(given.value) else otherwise
  }

  /**
   * The owner's names: those the table had, except what the call that created the owner gave; a row
   * it made itself has defaults for what it did not give.
   */
  ghost predicate NamesAre(w: World, first: Db, winner: Option<nat>) {
    w.db.row.Some? ==>
      match winner
      case None => first.row.Some? && w.db.row.value.name == first.row.value.name
                   && w.db.row.value.username == first.row.value.username
      case Some(i) =>
        && i < |w.calls|
        && w.db.row.value.name
           == Chosen(w.calls[i].name, if first.row.Some? then first.row.value.name else "Owner")
        && w.db.row.value.username
           == Chosen(w.calls[i].username, if first.row.Some? then first.row.value.username else "owner")
  }

  lemma ActNames(w: World, i: nat, first: Db, winner: Option<nat>)
    requires Inv(w, first, winner) && NamesAre(w, first, winner)
    ensures NamesAre(Act(w, i), first, NewWinner(w, i, winner))
  {
    hide Refusal, CallInv, HashIsFrom, Trim;
    if i < |w.pcs| {
      WhereItStands(w, i, HasOwner(first));
      RefusalIsRefusal(w.calls[i]);
    }
  }

  lemma {:induction false} RunNames(w: World, turns: seq<Turn>, first: Db, winner: Option<nat>)
    returns (last: Option<nat>)
    requires Inv(w, first, winner) && NamesAre(w, first, winner)
    ensures Inv(Run(w, turns), first, last) && NamesAre(Run(w, turns), first, last)
    decreases |turns|
  {
    hide Inv, Act, Visit;
    last := winner;
    if turns != [] {
      InvShape(w, first, winner);
      if turns[0].Caller? {
        ActOk(w, turns[0].i, first, winner);
        ActNames(w, turns[0].i, first, winner);
        last := RunNames(Act(w, turns[0].i), turns[1..], first, NewWinner(w, turns[0].i, winner));
      } else {
        VisitOk(w, turns[0], first, winner);
        last := RunNames(Visit(w, turns[0]), turns[1..], first, winner);
      }
    }
  }

  /** Over any run: an owner there was keeps its names, and one that was created has its creator's. */
  lemma OwnersNames(db: Db, calls: seq<Call>, turns: seq<Turn>)
    ensures var w := Run(Start(db, calls), turns);
            && (HasOwner(db) ==> w.db.row.Some? && w.db.row.value.name == db.row.value.name
                                 && w.db.row.value.username == db.row.value.username)
            && (forall i :: 0 <= i < |calls| && Created(w.pcs[i]) && w.db.row.Some? ==>
                  && w.db.row.value.name == Chosen(calls[i].name, if db.row.Some? then db.row.value.name else "Owner")
                  && w.db.row.value.username
                     == Chosen(calls[i].username, if db.row.Some? then db.row.value.username else "owner"))
  {
    hide Refusal, Step, CallInv, Trim;
    StartInv(db, calls);
    var last := RunNames(Start(db, calls), turns, db, None);
    var w := Run(Start(db, calls), turns);
    if HasOwner(db) && last.Some? {
      WhereItStands(w, last.value, true);
      assert false;
    }
  }

  // ----- Sessions -----

  /** No call is between setting a password and ending the sessions it had. */
  ghost predicate Quiet(w: World) {
    forall i: nat :: i < |w.pcs| ==> !w.pcs[i].EndSessions?
  }

  ghost predicate PasswordSet(w: World) {
    exists i: nat :: i < |w.pcs| && Wrote(w.pcs[i])
  }

  /** An account that does not exist has no sessions. */
  predicate NoAccountNoSessions(db: Db) {
    db.row.None? ==> db.sessions == map[]
  }

  /** Once a password is set and its sessions are ended, the sessions of other passwords are the late ones. */
  ghost predicate SessionsInv(w: World) {
    && Shaped(w)
    && NoAccountNoSessions(w.db)
    && (w.db.row.None? ==> w.pending == map[] && forall i: nat :: i < |w.pcs| ==> !Created(w.pcs[i]))
    && w.late <= w.db.sessions.Keys
    && (Quiet(w) && PasswordSet(w) ==> AreLate(w))
  }

  ghost predicate AreLate(w: World) {
    forall t :: t in w.db.sessions ==> (Some(w.db.sessions[t]) == Stored(w.db) <==> t !in w.late)
  }

  lemma VisitSessions(w: World, turn: Turn)
    requires SessionsInv(w) && !turn.Caller?
    ensures SessionsInv(Visit(w, turn))
  {
    hide Created, Wrote;
  }

  lemma ActSessions(w: World, i: nat)
    requires SessionsInv(w)
    ensures SessionsInv(Act(w, i))
  {
    hide Refusal, Given;
    if i < |w.pcs| {
      var (w', pc) := (Act(w, i), w.pcs[i]);
      RefusalIsRefusal(w.calls[i]);
      if !pc.EndSessions? && Quiet(w') && PasswordSet(w') && w.db.row.Some? {
        WasSet(w, i);
      }
    }
  }

  /** If no call is about to end sessions after a step, the step set no password of an account that was there. */
  lemma WasSet(w: World, i: nat)
    requires Shaped(w) && i < |w.pcs| && !w.pcs[i].EndSessions? && w.db.row.Some?
    requires Quiet(Act(w, i)) && PasswordSet(Act(w, i))
    ensures Quiet(w) && PasswordSet(w) && Act(w, i).db == w.db
  {
    hide Refusal, Given;
    RefusalIsRefusal(w.calls[i]);
    var w' := Act(w, i);
    assert !w'.pcs[i].EndSessions?;
    forall j: nat | j < |w.pcs| ensures !w.pcs[j].EndSessions? {
      assert !w'.pcs[j].EndSessions?;
    }
    var k: nat :| k < |w'.pcs| && Wrote(w'.pcs[k]);
    assert Wrote(w.pcs[k]);
  }

  /**
   * Once a call has set the password and no call is still to end sessions, the open sessions are
   * those of the stored password, but for the visitors who looked the password up before it was
   * replaced and opened their session after the sessions were ended.
   */
  lemma {:induction false} SessionsEnd(w: World, turns: seq<Turn>)
    requires SessionsInv(w)
    ensures SessionsInv(Run(w, turns))
    decreases |turns|
  {
    hide SessionsInv, Act, Visit;
    if turns != [] {
      SessionsShape(w);
      if turns[0].Caller? {
        ActSessions(w, turns[0].i);
      } else {
        VisitSessions(w, turns[0]);
      }
      SessionsEnd(Move(w, turns[0]), turns[1..]);
    }
  }

  lemma SessionsShape(w: World)
    requires SessionsInv(w)
    ensures Shaped(w)
  {
  }

  /** The same from the start: every session is one of the stored password exactly when no late one is open. */
  lemma OldSessionsEnd(db: Db, calls: seq<Call>, turns: seq<Turn>)
    requires NoAccountNoSessions(db)
    requires Quiet(Run(Start(db, calls), turns)) && PasswordSet(Run(Start(db, calls), turns))
    ensures var w := Run(Start(db, calls), turns);
            && (forall t :: t in w.db.sessions ==> (Some(w.db.sessions[t]) == Stored(w.db) <==> t !in w.late))
            && ((forall t :: t in w.db.sessions ==> Some(w.db.sessions[t]) == Stored(w.db))
                <==> forall t :: t !in w.late)
  {
    hide Run;
    SessionsEnd(Start(db, calls), turns);
    NoLateNoOther(Run(Start(db, calls), turns));
  }

  lemma NoLateNoOther(w: World)
    requires AreLate(w) && w.late <= w.db.sessions.Keys
    ensures (forall t :: t in w.db.sessions ==> Some(w.db.sessions[t]) == Stored(w.db)) <==> forall t :: t !in w.late
  {
    hide Stored;
    if t :| t in w.late {
      assert t in w.db.sessions;
    }
  }

  /** A late session: the visitor reads the old password, the whole reset goes by, and the session opens. */
  lemma LateExample(row: Row, c: Call, t: int)
    requires row.passwordHash.Some? && row.passwordHash != Some(c.passwordHash)
    requires c.overwrite && Refusal(c).None?
    ensures var w := Run(Start(Db(Some(row), map[]), [c]),
                         [LookUp(t), Caller(0), Caller(0), Caller(0), Caller(0), Caller(0), Open(t)]);
            && w.pcs[0] == Done(Provisioned(row.id, false, true))
            && Stored(w.db) == Some(c.passwordHash) && t in w.db.sessions && w.db.sessions[t] == row.passwordHash.value
  {
    hide Refusal, Run, Step;
    var start := Start(Db(Some(row), map[]), [c]);
    var five := [Caller(0), Caller(0), Caller(0), Caller(0), Caller(0)];
    RunAppend(start, [LookUp(t)], five + [Open(t)]);
    RunOne(start, LookUp(t));
    var first := Visit(start, LookUp(t));
    RunAppend(first, five, [Open(t)]);
    ResetAlone(first, c);
    RunOne(Run(first, five), Open(t));
    assert [LookUp(t)] + (five + [Open(t)])
           == [LookUp(t), Caller(0), Caller(0), Caller(0), Caller(0), Caller(0), Open(t)];
  }

  lemma RunOne(w: World, turn: Turn)
    requires Shaped(w)
    ensures Run(w, [turn]) == Move(w, turn)
  {
    assert [turn][1..] == [];
  }

  lemma {:induction false} RunAppend(w: World, a: seq<Turn>, b: seq<Turn>)
    requires Shaped(w)
    ensures Run(w, a + b) == Run(Run(w, a), b)
    decreases |a|
  {
    hide Move;
    if a == [] {
      assert a + b == b;
    } else {
      assert (a + b)[0] == a[0] && (a + b)[1..] == a[1..] + b;
      RunAppend(Move(w, a[0]), a[1..], b);
    }
  }

  /** A reset that nobody interrupts takes five turns. */
  lemma ResetAlone(w: World, c: Call)
    requires w.calls == [c] && w.pcs == [Check] && HasOwner(w.db) && c.overwrite && Refusal(c).None?
    ensures var after := Run(w, [Caller(0), Caller(0), Caller(0), Caller(0), Caller(0)]);
            && after.pending == w.pending && after.pcs == [Done(Provisioned(w.db.row.value.id, false, true))]
            && after.db.sessions == map[] && after.db.row == Some(w.db.row.value.(passwordHash := Some(c.passwordHash)))
  {
    hide Refusal, Given, Step, HasOwner;
    ResetSteps(w.db, c);
    var w1 := Act(w, 0);
    var w2 := Act(w1, 0);
    var w3 := Act(w2, 0);
    var w4 := Act(w3, 0);
    var w5 := Act(w4, 0);
    assert w1.pcs == [Claim] && w2.pcs == [Insert] && w3.pcs == [Reset];
    FiveTurns(w);
  }

  lemma ResetSteps(db: Db, c: Call)
    requires HasOwner(db) && c.overwrite && Refusal(c).None?
    ensures Step(db, Check, c) == (db, Claim) && Step(db, Claim, c) == (db, Insert)
    ensures Step(db, Insert, c) == (db, Reset)
    ensures var (db', pc') := Step(db, Reset, c);
            && db' == db.(row := Some(db.row.value.(passwordHash := Some(c.passwordHash))))
            && pc' == EndSessions(db.row.value.id, false)
            && Step(db', pc', c) == (db'.(sessions := map[]), Done(Provisioned(db.row.value.id, false, true)))
  {
    hide Refusal;
  }

  lemma FiveTurns(w: World)
    requires Shaped(w)
    ensures Run(w, [Caller(0), Caller(0), Caller(0), Caller(0), Caller(0)])
            == Act(Act(Act(Act(Act(w, 0), 0), 0), 0), 0)
  {
    hide Act;
  }

  // ----- Every call returns -----

  function Turns(turns: seq<Turn>, i: nat): nat {
    if turns == [] then 0 else (if turns[0] == Caller(i) then 1 else 0) + Turns(turns[1..], i)
  }

  /** Five turns are enough, whatever the others do in between. */
  lemma {:induction false} CallsReturn(w: World, turns: seq<Turn>, i: nat)
    requires Shaped(w) && i < |w.pcs|
    ensures StepsLeft(Run(w, turns).pcs[i]) <= Max(0, StepsLeft(w.pcs[i]) - Turns(turns, i))
    ensures Turns(turns, i) >= 5 ==> Run(w, turns).pcs[i].Done?
    decreases |turns|
  {
    hide Refusal, Visit;
    if turns != [] {
      CallsReturn(Move(w, turns[0]), turns[1..], i);
    }
  }

  function Max(a: int, b: int): int { if a >= b then a else b }
}
