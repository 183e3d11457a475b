/**
 * A background command's card: pieces of its output, each with its position, merged into a capped
 * tail. Pieces may come twice, overlap or leave holes.
 */
module ShellCard {
  import opened Wrappers

  /** The longest output a card shows. */
  const MAX_STREAM_CHARS := 16_000

  // ----- The capped tail -----

  /** The last characters of a text, as many as are kept. */
  function Keep(text: string): (r: string)
    ensures |r| <= MAX_STREAM_CHARS && |r| <= |text|
    ensures |text| <= MAX_STREAM_CHARS ==> r == text
  {
    if |text| > MAX_STREAM_CHARS then text[|text| - MAX_STREAM_CHARS..] else text
  }

  datatype Tail = Tail(text: string, truncated: bool)

  function AppendStreamTail(current: string, chunk: string): Tail {
    Tail(Keep(current + chunk), |current + chunk| > MAX_STREAM_CHARS)
  }

  predicate EndsWith(text: string, end: string) {
    |end| <= |text| && text[|text| - |end|..] == end
  }

  lemma KeepIsEnd(x: string, y: string)
    ensures EndsWith(Keep(x + y), Keep(y))
  {
    var s := x + y;
    var k, t := Keep(s), Keep(y);
    var d, e := |s| - |k|, |y| - |t|;
    assert k == s[d..] && t == y[e..];
    assert |k| >= |t|;
    assert k[|k| - |t|..] == s[|s| - |t|..] == y[e..];
  }

  /** Cutting a text before adding to it changes nothing that is kept. */
  /** At most the last sixteen thousand characters are kept. */
  lemma KeepIs(s: string)
    ensures Keep(s) == if |s| > 16_000 then s[|s| - 16_000..] else s
  {
  }

  lemma KeepAppend(x: string, y: string)
    ensures Keep(Keep(x) + y) == Keep(x + y)
  {
    var cut := x[..|x| - |Keep(x)|];
    assert x == cut + Keep(x);
    assert x + y == cut + (Keep(x) + y);
    KeepIsEnd(cut, Keep(x) + y);
  }

  /** A text that ends like another still does when the same is added to both. */
  lemma KeepEnds(text: string, part: string, added: string)
    requires |text| <= MAX_STREAM_CHARS && EndsWith(text, Keep(part))
    ensures EndsWith(Keep(text + added), Keep(part + added))
  {
    var junk := text[..|text| - |Keep(part)|];
    assert text == junk + Keep(part);
    assert text + added == junk + (Keep(part) + added);
    KeepIsEnd(junk, Keep(part) + added);
    KeepAppend(part, added);
  }

  /** Enough new text replaces all of the old. */
  lemma KeepLong(x: string, y: string)
    requires |y| >= MAX_STREAM_CHARS
    ensures Keep(x + y) == Keep(y)
  {
    KeepIsEnd(x, y);
  }

  // ----- Cards -----

  datatype Status = Running | Completed | Failed | Stopped | EndedWithTurn

  datatype Details = Details(stdout: string, truncated: bool, exitCode: Option<int>, background: Option<Status>)

  /** A call's card; only shell calls have details here. */
  datatype Block = Tool(id: string, details: Option<Details>, streamed: Option<int>) | Other

  /** A `shell_output` or `shell_output_checkpoint` frame, as received. */
  datatype Output = Output(
    id: string, chunk: Option<string>, reset: bool, truncated: bool, from: Option<int>, to: Option<int>)

  /** A `shell_task_done` frame, as received; an unknown status is none. */
  datatype TaskDone = TaskDone(
    id: string, status: Option<Status>, exitCode: Option<int>, stdout: Option<string>, truncated: bool)

  predicate IsShell(b: Block, id: string) { b.Tool? && b.id == id && b.details.Some? }

  /** A card that still takes output. */
  predicate Open(b: Block, id: string) {
    IsShell(b, id) && (b.details.value.background.None? || b.details.value.background == Some(Running))
  }

  function Have(b: Block): int
    requires b.Tool?
  {
    b.streamed.GetOr(0)
  }

  function ChunkOf(p: Output): string { p.chunk.GetOr("") }

  function To(p: Output, have: int): int {
    p.to.GetOr((if p.reset then 0 else have) + |ChunkOf(p)|)
  }

  function From(p: Output, have: int): int {
    p.from.GetOr(To(p, have) - |ChunkOf(p)|)
  }

  function Max(a: int, b: int): int { if a >= b then a else b }

  /** `slice` from a position that may lie past the end. */
  function Slice(s: string, at: nat): string { if at <= |s| then s[at..] else "" }

  /** The part of the chunk the card does not have. */
  function Added(p: Output, have: int): string {
    if p.reset || From(p, have) > have then ChunkOf(p)
    else Slice(ChunkOf(p), Max(0, |ChunkOf(p)| - (To(p, have) - have)))
  }

  function ApplyOutput(b: Block, p: Output): Block {
    if !Open(b, p.id) then b
    else
      var have := Have(b);
      var d := b.details.value;
      if !p.reset && To(p, have) <= have then b
      else
        var next := AppendStreamTail(if p.reset then "" else d.stdout, Added(p, have));
        var gap := !p.reset && From(p, have) > have;
        var truncated := next.truncated || gap || p.truncated || (!p.reset && d.truncated);
        b.(streamed := Some(To(p, have)),
           details := Some(d.(stdout := next.text, truncated := truncated, background := Some(Running))))
  }

  function ApplyDone(b: Block, p: TaskDone): Block {
    if p.status.None? || p.status == Some(Running) || !IsShell(b, p.id) then b
    else
      var d := b.details.value;
      var shown := if p.stdout.Some? then d.(stdout := p.stdout.value, truncated := p.truncated) else d;
      var coded := if p.exitCode.Some? then shown.(exitCode := p.exitCode) else shown;
      b.(details := Some(coded.(background := p.status)))
  }

  /** `applyShellOutput`: at most the cards with the frame's id change. */
  function ApplyShellOutput(blocks: seq<Block>, p: Output): (r: seq<Block>)
    ensures |r| == |blocks|
    ensures forall i :: 0 <= i < |r| && !IsShell(blocks[i], p.id) ==> r[i] == blocks[i]
    ensures forall i :: 0 <= i < |r| && IsShell(blocks[i], p.id) ==> r[i] == ApplyOutput(blocks[i], p)
  {
    if blocks == [] then [] else [ApplyOutput(blocks[0], p)] + ApplyShellOutput(blocks[1..], p)
  }

  /** `applyShellTaskDone`. */
  function ApplyShellTaskDone(blocks: seq<Block>, p: TaskDone): (r: seq<Block>)
    ensures |r| == |blocks|
    ensures forall i :: 0 <= i < |r| && !IsShell(blocks[i], p.id) ==> r[i] == blocks[i]
    ensures forall i :: 0 <= i < |r| && IsShell(blocks[i], p.id) ==> r[i] == ApplyDone(blocks[i], p)
  {
    if blocks == [] then [] else [ApplyDone(blocks[0], p)] + ApplyShellTaskDone(blocks[1..], p)
  }

  /** A frame that does not say where it stands goes behind what the card shows, or, on a reset, in its place. */
  lemma PlacelessOutput(b: Block, p: Output)
    requires Open(b, p.id) && p.from.None? && p.to.None? && p.chunk.Some? && p.chunk.value != "" && Have(b) >= 0
    ensures var (b', shown) := (ApplyOutput(b, p), if p.reset then "" else b.details.value.stdout);
            && Open(b', p.id) && b'.details.value.stdout == Keep(shown + p.chunk.value)
            && Have(b') == (if p.reset then 0 else Have(b)) + |p.chunk.value|
            && b'.details.value.exitCode == b.details.value.exitCode
  {
    assert Slice(p.chunk.value, 0) == p.chunk.value;
  }

  /**
   * The end of a command: its card takes the status, and the code and the output where there are
   * any; a status that is none or still running, and other cards, change nothing.
   */
  lemma DoneIsShown(b: Block, p: TaskDone)
    ensures !IsShell(b, p.id) || p.status.None? || p.status == Some(Running) ==> ApplyDone(b, p) == b
    ensures IsShell(b, p.id) && p.status.Some? && p.status != Some(Running) ==>
              var (b', d) := (ApplyDone(b, p), b.details.value);
              && IsShell(b', p.id) && b'.streamed == b.streamed && !Open(b', p.id)
              && b'.details.value.background == p.status
              && b'.details.value.exitCode == (if p.exitCode.Some? then p.exitCode else d.exitCode)
              && b'.details.value.stdout == (if p.stdout.Some? then p.stdout.value else d.stdout)
              && b'.details.value.truncated == (if p.stdout.Some? then p.truncated else d.truncated)
  {
  }

  // ----- Slices of one stream, in any order -----

  /** A piece of the text `s`, saying truly where it stands; no reset. */
  predicate IsSlice(p: Output, s: string) {
    && !p.reset && p.chunk.Some? && p.from.Some? && p.to.Some?
    && 0 <= p.from.value <= p.to.value <= |s|
    && p.chunk.value == s[p.from.value..p.to.value]
  }

  ghost predicate AreSlices(ps: seq<Output>, s: string, id: string) {
    forall i :: 0 <= i < |ps| ==> ps[i].id == id && IsSlice(ps[i], s)
  }

  function ApplyAll(b: Block, ps: seq<Output>): Block
    decreases |ps|
  {
    if ps == [] then b else ApplyAll(ApplyOutput(b, ps[0]), ps[1..])
  }

  /** The farthest position seen. */
  function MaxTo(have: int, ps: seq<Output>): int
    decreases |ps|
  {
    if ps == [] then have else MaxTo(Max(have, To(ps[0], have)), ps[1..])
  }

  /** Where the last frame that left a hole started; the old seam when none did. */
  function Seam(have: int, seam: int, ps: seq<Output>): int
    decreases |ps|
  {
    if ps == [] then seam
    else
      var past := To(ps[0], have) > have && From(ps[0], have) > have;
      Seam(Max(have, To(ps[0], have)), if past then From(ps[0], have) else seam, ps[1..])
  }

  /** Some frame that brought something new said the output is only a tail. */
  predicate SaidTruncated(have: int, ps: seq<Output>)
    decreases |ps|
  {
    ps != [] && ((To(ps[0], have) > have && ps[0].truncated) || SaidTruncated(Max(have, To(ps[0], have)), ps[1..]))
  }

  /**
   * The card of a running command shows the stream `s` up to `pos`, whole as far as the cap
   * allows, or, after a hole, at least from `seam` on.
   */
  ghost predicate Shows(b: Block, id: string, s: string, seam: int, pos: int) {
    && Open(b, id) && Have(b) == pos && 0 <= seam <= pos <= |s|
    && |b.details.value.stdout| <= MAX_STREAM_CHARS
    && EndsWith(b.details.value.stdout, Keep(s[seam..pos]))
    && (seam == 0 ==> b.details.value.stdout == Keep(s[..pos]))
    && ((seam > 0 || pos > MAX_STREAM_CHARS) ==> b.details.value.truncated)
  }

  lemma NothingAdded(p: Output, b: Block, s: string)
    requires IsSlice(p, s) && Open(b, p.id) && p.to.value <= Have(b)
    ensures ApplyOutput(b, p) == b
  {
  }

  /** What a slice adds to a card standing at `pos`. */
  lemma AddedPart(p: Output, s: string, pos: int)
    requires IsSlice(p, s) && 0 <= pos <= |s| && p.to.value > pos
    ensures p.from.value <= pos ==> Added(p, pos) == s[pos..p.to.value]
    ensures p.from.value > pos ==> Added(p, pos) == s[p.from.value..p.to.value]
  {
    if p.from.value <= pos {
      assert Added(p, pos) == s[p.from.value..p.to.value][pos - p.from.value..];
    }
  }

  lemma NextPart(s: string, a: nat, b: nat, c: nat)
    requires a <= b <= c <= |s|
    ensures s[a..b] + s[b..c] == s[a..c]
  {
  }

  lemma OneSlice(b: Block, p: Output, s: string, seam: int, pos: int)
    requires IsSlice(p, s) && Shows(b, p.id, s, seam, pos)
    ensures var past := p.to.value > pos && p.from.value > pos;
            var pos' := Max(pos, p.to.value);
            var seam' := if past then p.from.value else seam;
            && Shows(ApplyOutput(b, p), p.id, s, seam', pos')
            && (ApplyOutput(b, p).details.value.truncated
                <==> || b.details.value.truncated || seam' > 0 || pos' > MAX_STREAM_CHARS
                     || (p.to.value > pos && p.truncated))
  {
    hide Keep, EndsWith, Added;
    var to, from := p.to.value, p.from.value;
    if to <= pos {
      NothingAdded(p, b, s);
    } else {
      AddedPart(p, s, pos);
      var stdout, added := b.details.value.stdout, Added(p, pos);
      if from > pos {
        KeepIsEnd(stdout, added);
      } else {
        NextPart(s, seam, pos, to);
        KeepEnds(stdout, s[seam..pos], added);
        if seam == 0 {
          assert s[0..pos] == s[..pos] && s[0..to] == s[..to];
          KeepAppend(s[..pos], added);
          assert |stdout + added| > MAX_STREAM_CHARS ==> to > MAX_STREAM_CHARS;
          assert pos <= MAX_STREAM_CHARS && to > MAX_STREAM_CHARS ==> |stdout + added| == to;
        }
      }
    }
  }

  /**
   * Slices of one stream in any order, repeated and overlapping: the card stands at the farthest
   * end seen; it shows the capped tail of the stream up to there unless some slice started past
   * where the card stood, and from that slice's start on in any case; and it is marked as a tail
   * exactly when it was before, a hole was left, more came than is kept, or a frame said so.
   */
  lemma {:induction false} SlicesMerge(b: Block, ps: seq<Output>, id: string, s: string, seam: int, pos: int)
    requires AreSlices(ps, s, id) && Shows(b, id, s, seam, pos)
    ensures Shows(ApplyAll(b, ps), id, s, Seam(pos, seam, ps), MaxTo(pos, ps))
    ensures ApplyAll(b, ps).details.value.truncated
            <==> || b.details.value.truncated || Seam(pos, seam, ps) > 0
                 || MaxTo(pos, ps) > MAX_STREAM_CHARS || SaidTruncated(pos, ps)
    decreases |ps|
  {
    hide Shows, ApplyOutput, IsSlice, Added;
    if ps != [] {
      var p := ps[0];
      SliceEnds(p, s, pos);
      OneSlice(b, p, s, seam, pos);
      var past := p.to.value > pos && p.from.value > pos;
      var seam', pos' := if past then p.from.value else seam, Max(pos, p.to.value);
      SlicesMerge(ApplyOutput(b, p), ps[1..], id, s, seam', pos');
      ShowsBounds(b, id, s, seam, pos);
      SeamStays(pos', seam', ps[1..]);
    } else {
      ShowsBounds(b, id, s, seam, pos);
    }
  }

  lemma ShowsBounds(b: Block, id: string, s: string, seam: int, pos: int)
    requires Shows(b, id, s, seam, pos)
    ensures 0 <= seam <= pos && b.Tool? && b.details.Some?
    ensures seam > 0 || pos > MAX_STREAM_CHARS ==> b.details.value.truncated
  {
  }

  lemma SliceEnds(p: Output, s: string, have: int)
    requires IsSlice(p, s)
    ensures p.from.Some? && p.to.Some? && To(p, have) == p.to.value && From(p, have) == p.from.value
  {
  }

  lemma {:induction false} SeamStays(have: int, seam: int, ps: seq<Output>)
    requires have >= 0
    ensures seam > 0 ==> Seam(have, seam, ps) > 0
    ensures MaxTo(have, ps) >= have
    decreases |ps|
  {
    if ps != [] {
      var past := To(ps[0], have) > have && From(ps[0], have) > have;
      SeamStays(Max(have, To(ps[0], have)), if past then From(ps[0], have) else seam, ps[1..]);
    }
  }

  /** The farthest end is that of some slice, or where the card stood, and none lies past it. */
  lemma {:induction false} MaxToIsMax(have: int, ps: seq<Output>, s: string)
    requires forall i :: 0 <= i < |ps| ==> IsSlice(ps[i], s)
    ensures MaxTo(have, ps) >= have
    ensures forall i :: 0 <= i < |ps| ==> To(ps[i], 0) <= MaxTo(have, ps)
    ensures MaxTo(have, ps) == have || exists i :: 0 <= i < |ps| && To(ps[i], 0) == MaxTo(have, ps)
    decreases |ps|
  {
    if ps != [] {
      assert IsSlice(ps[0], s);
      var have' := Max(have, To(ps[0], have));
      MaxToIsMax(have', ps[1..], s);
      assert forall i :: 0 < i < |ps| ==> ps[i] == ps[1..][i - 1];
      if MaxTo(have', ps[1..]) != have' {
        var i :| 0 <= i < |ps[1..]| && To(ps[1..][i], 0) == MaxTo(have', ps[1..]);
        assert To(ps[i + 1], 0) == MaxTo(have, ps);
      }
    }
  }

  /** Without a hole the order does not matter: the text depends only on the farthest end. */
  lemma OrderDoesNotMatter(b: Block, ps: seq<Output>, qs: seq<Output>, id: string, s: string, pos: int)
    requires AreSlices(ps, s, id) && AreSlices(qs, s, id) && Shows(b, id, s, 0, pos)
    requires forall p :: p in ps <==> p in qs
    requires Seam(pos, 0, ps) == 0 && Seam(pos, 0, qs) == 0
    ensures Open(ApplyAll(b, ps), id) && Open(ApplyAll(b, qs), id)
    ensures ApplyAll(b, ps).details.value.stdout == ApplyAll(b, qs).details.value.stdout
    ensures Have(ApplyAll(b, ps)) == Have(ApplyAll(b, qs))
  {
    hide IsSlice, ApplyOutput, Keep;
    SlicesMerge(b, ps, id, s, 0, pos);
    SlicesMerge(b, qs, id, s, 0, pos);
    SameEnd(pos, ps, qs, s);
    SameEnd(pos, qs, ps, s);
  }

  lemma SameEnd(have: int, ps: seq<Output>, qs: seq<Output>, s: string)
    requires forall p :: p in ps ==> p in qs
    requires forall i :: 0 <= i < |ps| ==> IsSlice(ps[i], s)
    requires forall i :: 0 <= i < |qs| ==> IsSlice(qs[i], s)
    ensures MaxTo(have, ps) <= MaxTo(have, qs)
  {
    MaxToIsMax(have, ps, s);
    MaxToIsMax(have, qs, s);
    if MaxTo(have, ps) != have {
      var i :| 0 <= i < |ps| && To(ps[i], 0) == MaxTo(have, ps);
      assert ps[i] in qs;
    }
  }

  /** A frame that was already applied changes nothing when it comes again. */
  lemma AgainIsNothing(b: Block, ps: seq<Output>, k: nat, id: string, s: string, seam: int, pos: int)
    requires AreSlices(ps, s, id) && Shows(b, id, s, seam, pos) && k < |ps|
    ensures ApplyOutput(ApplyAll(b, ps), ps[k]) == ApplyAll(b, ps)
  {
    SlicesMerge(b, ps, id, s, seam, pos);
    MaxToIsMax(pos, ps, s);
    NothingAdded(ps[k], ApplyAll(b, ps), s);
  }

  /** After a hole, as much new output as is kept makes the card show the true tail again. */
  lemma HoleHeals(b: Block, ps: seq<Output>, id: string, s: string, seam: int, pos: int)
    requires AreSlices(ps, s, id) && Shows(b, id, s, seam, pos)
    requires MaxTo(pos, ps) - Seam(pos, seam, ps) >= MAX_STREAM_CHARS
    ensures Open(ApplyAll(b, ps), id) && 0 <= MaxTo(pos, ps) <= |s|
    ensures ApplyAll(b, ps).details.value.stdout == Keep(s[..MaxTo(pos, ps)])
  {
    hide IsSlice, ApplyOutput, ApplyAll, Seam, MaxTo, AreSlices, SaidTruncated;
    SlicesMerge(b, ps, id, s, seam, pos);
    var from, to := Seam(pos, seam, ps), MaxTo(pos, ps);
    assert s[..to] == s[..from] + s[from..to];
    KeepLong(s[..from], s[from..to]);
  }

  /** A settled card keeps what `shell_task_done` gave it, whatever output still arrives. */
  lemma {:induction false} SettledStays(b: Block, done: TaskDone, ps: seq<Output>)
    requires done.status.Some? && done.status != Some(Running) && IsShell(b, done.id)
    ensures ApplyAll(ApplyDone(b, done), ps) == ApplyDone(b, done)
    decreases |ps|
  {
    if ps != [] {
      SettledStays(b, done, ps[1..]);
    }
  }

  /** A reset starts the card over: it shows the chunk alone, from wherever it had been. */
  lemma ResetStartsOver(b: Block, p: Output, s: string)
    requires Open(b, p.id) && p.reset && p.chunk == Some(Keep(s)) && p.to == Some(|s|)
    requires |s| > MAX_STREAM_CHARS ==> p.truncated
    ensures Shows(ApplyOutput(b, p), p.id, s, 0, |s|)
    ensures ApplyOutput(b, p).details.value.truncated == p.truncated
  {
    hide EndsWith;
    assert "" + Keep(s) == Keep(s) && s[..|s|] == s && s[0..|s|] == s;
    KeepIsEnd("", s);
    KeepAppend(s, "");
    assert "" + s == s && Keep(s) + "" == Keep(s) && s + "" == s;
  }
}
