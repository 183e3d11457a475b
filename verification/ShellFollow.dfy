/**
 * A backgrounded command followed from both ends: the engine grows the saved output and sends a
 * live frame for every read and a saved checkpoint now and then; a page hears every frame until it
 * loses the connection and only the saved ones after that.
 */
module ShellFollow {
  import opened ShellCard
  import opened Wrappers

  datatype Unsaved = Unsaved(chunk: string, reset: bool)

  /** The engine's state of one followed command. */
  datatype Shell = Shell(
    id: string, stdout: string, truncated: bool, exitCode: Option<int>, background: Option<Status>,
    streamed: nat, unsaved: Option<Unsaved>, savedAt: int, settled: bool, closed: bool)

  datatype Frame = Live(output: Output) | Checkpoint(output: Output) | Done(done: TaskDone)

  function OutputFrame(e: Shell, chunk: string, reset: bool): Output {
    Output(e.id, Some(chunk), reset, e.truncated, Some(e.streamed - |chunk|), Some(e.streamed))
  }

  function AfterChunk(e: Shell, chunk: string, reset: bool, skipped: bool): Shell {
    if e.settled || e.closed then e
    else
      var next := AppendStreamTail(if reset then "" else e.stdout, chunk);
      var kept := Keep(chunk);
      e.(stdout := next.text,
         truncated := next.truncated || skipped || (!reset && e.truncated),
         streamed := (if reset then 0 else e.streamed) + |chunk|,
         unsaved := Some(if reset || e.unsaved.None? then Unsaved(kept, reset)
                         else Unsaved(Keep(e.unsaved.value.chunk + kept), e.unsaved.value.reset)))
  }

  function ChunkFrame(e: Shell, chunk: string, reset: bool, skipped: bool): Option<Frame> {
    if e.settled || e.closed then None
    else Some(Live(OutputFrame(AfterChunk(e, chunk, reset, skipped), Keep(chunk), reset)))
  }

  predicate Due(e: Shell, now: int, every: nat) {
    !e.settled && !e.closed && e.unsaved.Some? && (e.savedAt == 0 || now - e.savedAt >= every)
  }

  function AfterPoll(e: Shell, now: int, every: nat): Shell {
    if Due(e, now, every) then e.(unsaved := None, savedAt := now) else e
  }

  function PollFrame(e: Shell, now: int, every: nat): Option<Frame> {
    if Due(e, now, every) then Some(Checkpoint(OutputFrame(e, e.unsaved.value.chunk, e.unsaved.value.reset))) else None
  }

  function AfterSettle(e: Shell, status: Status, exitCode: Option<int>): Shell {
    if e.settled then e
    else e.(settled := true, background := Some(status), exitCode := if exitCode.Some? then exitCode else e.exitCode)
  }

  function SettleFrame(e: Shell, status: Status, exitCode: Option<int>): Option<Frame> {
    if e.settled then None
    else Some(Done(TaskDone(e.id, Some(status), exitCode, Some(e.stdout), e.truncated)))
  }

  /** The tracked entry, updated in place. */
  class TrackedShell {
    const toolUseId: string
    var stdout: string
    var truncated: bool
    var exitCode: Option<int>
    var background: Option<Status>
    var streamed: nat
    var unsaved: Option<Unsaved>
    var savedAt: int
    var settled: bool
    var closed: bool

    ghost function State(): Shell
      reads this
    {
      Shell(toolUseId, stdout, truncated, exitCode, background, streamed, unsaved, savedAt, settled, closed)
    }

    /** Starts following a call that runs. */
    constructor (id: string, shown: Details)
      ensures State() == Tracked(id, shown)
    {
      toolUseId := id;
      stdout, truncated, exitCode, background := shown.stdout, shown.truncated, shown.exitCode, Some(Running);
      streamed, unsaved, savedAt, settled, closed := 0, None, 0, false, false;
    }

    method ApplyChunk(chunk: string, reset: bool, skipped: bool) returns (frame: Option<Frame>)
      modifies this
      ensures State() == AfterChunk(old(State()), chunk, reset, skipped)
      ensures frame == ChunkFrame(old(State()), chunk, reset, skipped)
    {
      hide Keep;
      if settled || closed {
        return None;
      }
      var next := if reset then AppendStreamTail("", chunk) else AppendStreamTail(stdout, chunk);
      stdout := next.text;
      truncated := next.truncated || skipped || (!reset && truncated);
      streamed := (if reset then 0 else streamed) + |chunk|;
      var kept := Keep(chunk);
      if reset || unsaved.None? {
        unsaved := Some(Unsaved(kept, reset));
      } else {
        unsaved := Some(Unsaved(Keep(unsaved.value.chunk + kept), unsaved.value.reset));
      }
      frame := Some(Live(Output(toolUseId, Some(kept), reset, truncated, Some(streamed - |kept|), Some(streamed))));
    }

    method SaveCheckpoint(now: int, every: nat) returns (frame: Option<Frame>)
      modifies this
      ensures State() == AfterPoll(old(State()), now, every)
      ensures frame == PollFrame(old(State()), now, every)
    {
      if settled || closed || unsaved.None? {
        return None;
      }
      if savedAt != 0 && now - savedAt < every {
        return None;
      }
      var chunk, reset := unsaved.value.chunk, unsaved.value.reset;
      unsaved := None;
      savedAt := now;
      frame := Some(Checkpoint(
        Output(toolUseId, Some(chunk), reset, truncated, Some(streamed - |chunk|), Some(streamed))));
    }

    method Settle(status: Status, code: Option<int>) returns (frame: Option<Frame>)
      modifies this
      ensures State() == AfterSettle(old(State()), status, code)
      ensures frame == SettleFrame(old(State()), status, code)
    {
      if settled {
        return None;
      }
      settled := true;
      background := Some(status);
      if code.Some? {
        exitCode := code;
      }
      frame := Some(Done(TaskDone(toolUseId, Some(status), code, Some(stdout), truncated)));
    }
  }

  function Tracked(id: string, shown: Details): Shell {
    Shell(id, shown.stdout, shown.truncated, shown.exitCode, Some(Running), 0, None, 0, false, false)
  }

  // ----- Runs -----

  /**
   * What happens: a read brought text, a poll went by, the command ended, the engine closed, the
   * page lost the stream.
   */
  datatype Event =
    | Read(chunk: string, reset: bool, skipped: bool)
    | Poll(now: int)
    | Ends(status: Status, exitCode: Option<int>)
    | StopAll
    | Disconnect

  /**
   * A run: the engine, the page's card, whether the page still hears live frames; and for the
   * record, the output since the last reset, where the last checkpoint stood in it, and the output
   * the card is a view of.
   */
  datatype Run = Run(shell: Shell, card: Block, hears: bool, started: bool, text: string, saved: nat, seen: string)

  function Hear(card: Block, frame: Option<Frame>, hears: bool): Block {
    match frame
    case None => card
    case Some(Live(p)) => if hears then ApplyOutput(card, p) else card
    case Some(Checkpoint(p)) => ApplyOutput(card, p)
    case Some(Done(d)) => ApplyDone(card, d)
  }

  function Step(r: Run, e: Event, every: nat): Run {
    var shell := r.shell;
    match e
    case Read(chunk, reset, skipped) =>
      var card := Hear(r.card, ChunkFrame(shell, chunk, reset, skipped), r.hears);
      if shell.settled || shell.closed then r.(card := card)
      else
        var text := if reset then chunk else r.text + chunk;
        Run(AfterChunk(shell, chunk, reset, skipped), card, r.hears, true, text, if reset then 0 else r.saved,
            if r.hears || (!reset && !PendingReset(shell)) then text else r.seen)
    case Poll(now) =>
      var card := Hear(r.card, PollFrame(shell, now, every), r.hears);
      if Due(shell, now, every) then
        r.(shell := AfterPoll(shell, now, every), card := card, saved := |r.text|, seen := r.text)
      else r.(card := card)
    case Ends(status, exitCode) =>
      r.(shell := AfterSettle(shell, status, exitCode),
         card := Hear(r.card, SettleFrame(shell, status, exitCode), r.hears))
    case StopAll => r.(shell := shell.(closed := true))
    case Disconnect => r.(hears := false)
  }

  predicate PendingReset(e: Shell) { e.unsaved.Some? && e.unsaved.value.reset }

  /** Reads bring text; the first one starts the output over, and so does one that skipped. */
  predicate Legal(r: Run, e: Event) {
    match e
    case Read(chunk, reset, skipped) => chunk != "" && (!r.started || skipped ==> reset)
    case Ends(status, _) => status != Running
    case _ => true
  }

  function After(r: Run, events: seq<Event>, every: nat): Run
    decreases |events|
  {
    if events == [] then r else After(Step(r, events[0], every), events[1..], every)
  }

  ghost predicate AllLegal(r: Run, events: seq<Event>, every: nat)
    decreases |events|
  {
    events == [] || (Legal(r, events[0]) && AllLegal(Step(r, events[0], every), events[1..], every))
  }

  /** A command just tracked, and its card from the `tool_result` frame. */
  function Start(id: string, shown: Details): Run {
    var details := shown.(background := Some(Running));
    Run(Tracked(id, shown), Tool(id, Some(details), None), true, false, "", 0, "")
  }

  // ----- What every run keeps -----

  /** The card shows exactly what the engine has saved. */
  ghost predicate InStep(card: Block, e: Shell) {
    && IsShell(card, e.id)
    && card.details.value.stdout == e.stdout && card.details.value.truncated == e.truncated
    && card.details.value.exitCode == e.exitCode
    && (!e.settled ==> Open(card, e.id) && Have(card) == e.streamed)
    && (e.settled ==> card.details.value.background == e.background)
  }

  /** What the engine holds of the output since the last reset. */
  ghost predicate EngineInv(r: Run) {
    var e := r.shell;
    && e.streamed == |r.text| && r.saved <= |r.text|
    && (r.started <==> r.text != "") && (!r.started ==> r.seen == "")
    && (r.started ==> e.stdout == Keep(r.text) && (|r.text| > MAX_STREAM_CHARS ==> e.truncated))
    && (e.unsaved.Some? ==> r.started && e.unsaved.value.chunk == Keep(r.text[r.saved..]))
    && (PendingReset(e) ==> r.saved == 0)
    && (e.unsaved.None? ==> r.saved == |r.text|)
    && (e.settled ==> e.background.Some? && e.background != Some(Running))
  }

  /** Where the card is: on the engine's own output unless it has yet to hear of a reset. */
  ghost predicate CardInv(r: Run) {
    var e := r.shell;
    && (e.settled || r.hears || e.unsaved.None? ==> InStep(r.card, e))
    && (!e.settled ==>
          && Open(r.card, e.id) && r.card.details.value.exitCode == e.exitCode
          && (r.started && r.seen != "" ==> Shows(r.card, e.id, r.seen, 0, Have(r.card)))
          && (!PendingReset(e) || r.hears ==> r.seen == r.text)
          && (!PendingReset(e) && r.started ==>
                && r.saved <= Have(r.card) <= |r.text|
                && (r.card.details.value.truncated ==> e.truncated)
                && (Have(r.card) == |r.text| ==> r.card.details.value.truncated == e.truncated)))
  }

  ghost predicate Inv(r: Run) { EngineInv(r) && CardInv(r) }

  lemma KeepRight(x: string, y: string)
    ensures Keep(x + Keep(y)) == Keep(x + y)
  {
    if |y| > MAX_STREAM_CHARS {
      KeepLong(x, Keep(y));
      KeepLong(x, y);
    }
  }

  lemma StartInv(id: string, shown: Details)
    ensures Inv(Start(id, shown))
  {
  }

  lemma EngineStep(r: Run, e: Event, every: nat)
    requires EngineInv(r) && Legal(r, e)
    ensures EngineInv(Step(r, e, every))
  {
    hide Keep, ApplyOutput, ApplyDone;
    if e.Read? && !r.shell.settled && !r.shell.closed {
      ReadKeeps(r, e, every);
    }
  }

  lemma ReadKeeps(r: Run, e: Event, every: nat)
    requires EngineInv(r) && Legal(r, e) && e.Read? && !r.shell.settled && !r.shell.closed
    ensures EngineInv(Step(r, e, every))
  {
    hide Keep, ApplyOutput, ApplyDone;
    var text := if e.reset then e.chunk else r.text + e.chunk;
    if e.reset {
      assert "" + e.chunk == e.chunk && text[0..] == text;
    } else {
      KeepAppend(r.text, e.chunk);
      KeepRight(r.text[r.saved..], e.chunk);
      KeepAppend(r.text[r.saved..], Keep(e.chunk));
      assert text[r.saved..] == r.text[r.saved..] + e.chunk;
      TruncatedGrows(r.text, e.chunk);
    }
  }

  lemma TruncatedGrows(x: string, y: string)
    ensures |x + y| > MAX_STREAM_CHARS && |x| <= MAX_STREAM_CHARS ==> |Keep(x) + y| > MAX_STREAM_CHARS
  {
  }

  /** A frame that runs to the end of the output and starts no later than the card stands puts it in step. */
  lemma CatchesUp(card: Block, p: Output, text: string, from: nat, pos: nat)
    requires Shows(card, p.id, text, 0, pos) && from <= pos <= |text|
    requires !p.reset && p.chunk == Some(Keep(text[from..]))
    requires p.to == Some(|text|) && p.from == Some(|text| - |Keep(text[from..])|)
    requires |text| > MAX_STREAM_CHARS ==> p.truncated
    requires card.details.value.truncated ==> p.truncated
    requires pos == |text| ==> card.details.value.truncated == p.truncated
    ensures Shows(ApplyOutput(card, p), p.id, text, 0, |text|)
    ensures ApplyOutput(card, p).details.value.truncated == p.truncated
  {
    hide ApplyOutput, EndsWith, Added;
    var chunk := Keep(text[from..]);
    assert text[|text| - |chunk|..|text|] == chunk;
    assert IsSlice(p, text);
    OneSlice(card, p, text, 0, pos);
    if p.to.value > pos && p.from.value > pos {
      assert |chunk| == MAX_STREAM_CHARS;
      FromSeam(ApplyOutput(card, p), p.id, text, p.from.value);
    }
  }

  /** A card that shows as much as is kept from its seam on shows the whole tail. */
  lemma FromSeam(card: Block, id: string, text: string, seam: nat)
    requires Shows(card, id, text, seam, |text|)
    requires |text| - seam == MAX_STREAM_CHARS
    ensures Shows(card, id, text, 0, |text|)
  {
    assert text[..|text|] == text && text[0..|text|] == text;
    assert text == text[..seam] + text[seam..];
    KeepLong(text[..seam], text[seam..]);
    assert text[seam..|text|] == text[seam..];
    var stdout := card.details.value.stdout;
    assert stdout == stdout[0..] == Keep(text);
  }

  /** A card shows the same prefix of a longer text. */
  lemma ShowsMore(card: Block, id: string, text: string, more: string, pos: nat)
    requires Shows(card, id, text, 0, pos)
    ensures Shows(card, id, text + more, 0, pos)
  {
    hide Keep, EndsWith;
    assert (text + more)[..pos] == text[..pos] && (text + more)[0..pos] == text[0..pos];
  }

  lemma StepRead(r: Run, e: Event, every: nat)
    requires Inv(r) && Legal(r, e) && e.Read? && !r.shell.settled && !r.shell.closed
    requires EngineInv(Step(r, e, every))
    ensures CardInv(Step(r, e, every))
  {
    hide ApplyOutput, EndsWith, Keep, Shows;
    var r' := Step(r, e, every);
    var text, p := r'.text, ChunkFrame(r.shell, e.chunk, e.reset, e.skipped).value.output;
    if r.hears {
      if e.reset {
        ResetStartsOver(r.card, p, text);
      } else {
        ShowsMore(r.card, r.shell.id, r.text, e.chunk, |r.text|);
        assert text[|r.text|..] == e.chunk;
        CatchesUp(r.card, p, text, |r.text|, |r.text|);
      }
      ExitStays(r.card, p);
      ShowsAll(r'.card, r'.shell.id, text);
    } else if !e.reset && !PendingReset(r.shell) {
      ShowsMore(r.card, r.shell.id, r.text, e.chunk, Have(r.card));
    }
  }

  lemma ExitStays(card: Block, p: Output)
    requires Open(card, p.id)
    ensures Open(ApplyOutput(card, p), p.id)
    ensures ApplyOutput(card, p).details.value.exitCode == card.details.value.exitCode
  {
  }

  lemma ShowsAll(card: Block, id: string, text: string)
    requires Shows(card, id, text, 0, |text|)
    ensures Open(card, id) && Have(card) == |text| && card.details.value.stdout == Keep(text)
  {
    assert text[..|text|] == text;
  }

  lemma StepPoll(r: Run, e: Event, every: nat)
    requires Inv(r) && e.Poll? && Due(r.shell, e.now, every)
    ensures CardInv(Step(r, e, every))
  {
    hide ApplyOutput, EndsWith, Keep, Shows;
    var r' := Step(r, e, every);
    var p := PollFrame(r.shell, e.now, every).value.output;
    if p.reset {
      assert r.text[0..] == r.text;
      ResetStartsOver(r.card, p, r.text);
    } else {
      CatchesUp(r.card, p, r.text, r.saved, Have(r.card));
    }
    ExitStays(r.card, p);
    ShowsAll(r'.card, r'.shell.id, r.text);
  }

  /** Every step keeps the card where it should be. */
  lemma StepOk(r: Run, e: Event, every: nat)
    requires Inv(r) && Legal(r, e)
    ensures Inv(Step(r, e, every))
  {
    hide ApplyOutput, Shows;
    EngineStep(r, e, every);
    match e
    case Read(_, _, _) =>
      if !r.shell.settled && !r.shell.closed {
        StepRead(r, e, every);
      }
    case Poll(now) =>
      if Due(r.shell, now, every) {
        StepPoll(r, e, every);
      }
    case _ =>
  }

  /**
   * What each event brings about: a read grows the output, or starts it over, and is on the card at
   * once while the page hears it; a poll saves what is unsaved, to the card as well, unless the last
   * was too recent; the end is on the card with its status and code.
   */
  lemma EventsTakeEffect(r: Run, e: Event, every: nat)
    requires Inv(r) && Legal(r, e)
    ensures var (r', e') := (Step(r, e, every), Step(r, e, every).shell);
            match e
            case Read(chunk, reset, _) =>
              !r.shell.settled && !r.shell.closed ==>
                r'.text == (if reset then chunk else r.text + chunk) && (r.hears ==> InStep(r'.card, e'))
            case Poll(now) =>
              (!r.shell.settled && !r.shell.closed && (r.shell.savedAt == 0 || now - r.shell.savedAt >= every) ==>
                 e'.unsaved.None? && InStep(r'.card, e'))
            case Ends(status, code) =>
              !r.shell.settled ==>
                && e'.settled && e'.background == Some(status) && (code.Some? ==> e'.exitCode == code)
                && InStep(r'.card, e')
            case StopAll => e'.closed
            case Disconnect => !r'.hears
  {
    hide ApplyOutput, Shows, InStep, ApplyDone;
    StepOk(r, e, every);
  }

  lemma {:induction false} RunOk(r: Run, events: seq<Event>, every: nat)
    requires Inv(r) && AllLegal(r, events, every)
    ensures Inv(After(r, events, every))
    decreases |events|
  {
    hide Inv, Step, Legal;
    if events != [] {
      StepOk(r, events[0], every);
      RunOk(Step(r, events[0], every), events[1..], every);
    }
  }

  /**
   * Whatever is read, whenever it is saved and wherever the page loses the stream: the card is
   * exactly the engine's saved block while the page still hears everything, whenever nothing is
   * waiting to be saved, and once the command has ended; in between it shows the capped tail of
   * a prefix of real output, never a patchwork. It is not marked as a tail unless the block is or
   * the card has yet to hear that the output started over.
   */
  lemma CardFollowsCommand(id: string, shown: Details, events: seq<Event>, every: nat)
    requires AllLegal(Start(id, shown), events, every)
    ensures var r := After(Start(id, shown), events, every);
            && (r.hears || r.shell.unsaved.None? || r.shell.settled ==> InStep(r.card, r.shell))
            && (r.started ==> r.shell.stdout == Keep(r.text) && (|r.text| > MAX_STREAM_CHARS ==> r.shell.truncated))
            && (!r.shell.settled ==> Open(r.card, id))
            && (!r.shell.settled && r.seen != "" && r.started ==> Shows(r.card, id, r.seen, 0, Have(r.card)))
            && (!PendingReset(r.shell) && !r.shell.settled ==> r.seen == r.text)
            && (!PendingReset(r.shell) && !r.shell.settled && r.started && r.card.details.value.truncated ==>
                  r.shell.truncated)
  {
    hide Shows, Step, InStep;
    StartInv(id, shown);
    RunOk(Start(id, shown), events, every);
    IdStays(Start(id, shown), events, every);
  }

  lemma {:induction false} IdStays(r: Run, events: seq<Event>, every: nat)
    ensures After(r, events, every).shell.id == r.shell.id
    decreases |events|
  {
    if events != [] {
      IdStays(Step(r, events[0], every), events[1..], every);
    }
  }
}
