/**
 * The whole resume protocol: a run's saved events have rising sequence numbers, every connection
 * carries those after the number it was asked for and may be cut at any character, and what the
 * consumer yields is still the run's log from its start, without a gap or a repeat.
 */
module SseResume {
  import opened SseConsumer
  import opened SseFraming
  import opened Text
  import opened Wrappers

  // ----- A stream of frames, cut anywhere -----

  function EncodeAll(frames: seq<Frame>): string {
    if frames == [] then "" else Encode(frames[0]) + EncodeAll(frames[1..])
  }

  function BlockTexts(frames: seq<Frame>): seq<string> {
    if frames == [] then [] else [BlockText(frames[0])] + BlockTexts(frames[1..])
  }

  ghost predicate AllWellFormed<P>(frames: seq<Frame>, json: string -> Option<P>) {
    forall i :: 0 <= i < |frames| ==> WellFormed(frames[i], json)
  }

  /** A block holds no empty line and is not followed by one before its own end. */
  lemma BlockIsPlain<P>(f: Frame, json: string -> Option<P>)
    requires WellFormed(f, json)
    ensures var b := BlockText(f);
            && b != "" && b[|b| - 1] != '\n'
            && forall k :: 0 <= k < |b| - 1 ==> !(b[k] == '\n' && b[k + 1] == '\n')
  {
    hide Join, Trim, FromNat;
    LinesArePlain(f, json);
    JoinedLines(FrameLines(f));
  }

  lemma PlainHasNoBreak(r: string, b: string)
    requires b != "" && b[|b| - 1] != '\n'
    requires forall k :: 0 <= k < |b| - 1 ==> !(b[k] == '\n' && b[k + 1] == '\n')
    requires r <= b + "\n"
    ensures Blocks(r) == [r]
  {
    assert forall k :: 0 <= k < |r| ==> r[k] == (b + "\n")[k];
    assert FirstBreak(r) == |r|;
  }

  lemma BreakAfterBlock(b: string, more: string)
    requires b != "" && b[|b| - 1] != '\n'
    requires forall k :: 0 <= k < |b| - 1 ==> !(b[k] == '\n' && b[k + 1] == '\n')
    ensures Blocks(b + "\n\n" + more) == [b] + Blocks(more)
  {
    var s := b + "\n\n" + more;
    var i := FirstBreak(s);
    assert s[|b|] == '\n' && s[|b| + 1] == '\n';
    assert i <= |b|;
    assert forall k :: 0 <= k < |b| ==> s[k] == b[k];
    assert i == |b|;
    assert s[..i] == b && s[i + 2..] == more;
  }

  /** However much of the frames' text arrives, the finished blocks are those of the first few frames. */
  lemma {:induction false} CutAnywhere<P>(frames: seq<Frame>, r: string, json: string -> Option<P>) returns (k: nat)
    requires AllWellFormed(frames, json)
    requires r <= EncodeAll(frames)
    ensures k <= |frames|
    ensures Finished(r) == BlockTexts(frames[..k])
    ensures r == EncodeAll(frames) ==> k == |frames|
    decreases |frames|
  {
    hide Blocks, BlockText, Encode, WellFormed;
    if frames == [] {
      EmptyBuffer();
      return 0;
    }
    var b, rest := BlockText(frames[0]), EncodeAll(frames[1..]);
    EncodeIsBlock(frames[0]);
    BlockIsPlain(frames[0], json);
    assert EncodeAll(frames) == b + "\n\n" + rest;
    if |r| <= |b| + 1 {
      assert r <= b + "\n" by {
        assert forall i :: 0 <= i < |r| ==> r[i] == (b + "\n\n" + rest)[i] == (b + "\n")[i];
      }
      PlainHasNoBreak(r, b);
      assert frames[..0] == [];
      return 0;
    }
    var more := r[|b| + 2..];
    assert r == b + "\n\n" + more by {
      assert r[..|b| + 2] == (b + "\n\n" + rest)[..|b| + 2] == b + "\n\n";
    }
    assert more <= rest by {
      assert forall i :: 0 <= i < |more| ==> more[i] == r[|b| + 2 + i] == (b + "\n\n" + rest)[|b| + 2 + i] == rest[i];
    }
    BreakAfterBlock(b, more);
    var j := CutAnywhere(frames[1..], more, json);
    assert Front([b] + Blocks(more)) == [b] + Front(Blocks(more));
    k := j + 1;
    assert frames[..k][0] == frames[0] && frames[..k][1..] == frames[1..][..j];
  }

  // ----- The run's log -----

  /** The event a frame is read back as. */
  ghost function EventOf<P>(f: Frame, json: string -> Option<P>): Event<P>
    requires WellFormed(f, json)
  {
    Event(match f.id case Some(n) => Some(n as int) case None => None, f.name, json(f.data).value)
  }

  ghost function EventsOf<P>(frames: seq<Frame>, json: string -> Option<P>): seq<Event<P>>
    requires AllWellFormed(frames, json)
    ensures |EventsOf(frames, json)| == |frames|
  {
    if frames == [] then [] else [EventOf(frames[0], json)] + EventsOf(frames[1..], json)
  }

  /** The frames that carry a sequence number. */
  function Saved(frames: seq<Frame>): seq<Frame> {
    if frames == [] then []
    else if frames[0].id.Some? then [frames[0]] + Saved(frames[1..])
    else Saved(frames[1..])
  }

  function SavedEvents<P>(events: seq<Event<P>>): seq<Event<P>> {
    if events == [] then []
    else if events[0].id.Some? then [events[0]] + SavedEvents(events[1..])
    else SavedEvents(events[1..])
  }

  /** The saved frames past a sequence number. */
  function After(log: seq<Frame>, since: int): seq<Frame> {
    if log == [] then []
    else if log[0].id.Some? && log[0].id.value > since then [log[0]] + After(log[1..], since)
    else After(log[1..], since)
  }

  /** Every frame is saved, under a number higher than the one before it and than `last`. */
  ghost predicate Rising(frames: seq<Frame>, last: int)
    decreases |frames|
  {
    frames == [] || (frames[0].id.Some? && frames[0].id.value > last && Rising(frames[1..], frames[0].id.value))
  }

  ghost predicate IsLog<P>(log: seq<Frame>, json: string -> Option<P>) {
    AllWellFormed(log, json) && Rising(log, 0)
  }

  /** The number of the last saved frame, or `last` when there is none. */
  function LastId(frames: seq<Frame>, last: int): int {
    if frames == [] then last
    else LastId(frames[1..], if frames[0].id.Some? then frames[0].id.value else last)
  }

  /** What comes after a number in a rising log is rising from it and made of the log's frames. */
  lemma {:induction false} AfterRises<P>(log: seq<Frame>, last: int, since: int, json: string -> Option<P>)
    requires Rising(log, last) && AllWellFormed(log, json)
    ensures Rising(After(log, since), since) && AllWellFormed(After(log, since), json)
    ensures last >= since ==> After(log, since) == log
    decreases |log|
  {
    hide WellFormed;
    if log != [] {
      AfterRises(log[1..], log[0].id.value, since, json);
      if log[0].id.value > since {
        assert log == [log[0]] + log[1..];
        assert After(log, since) == log;
      }
    }
  }

  lemma {:induction false} AfterTwice(log: seq<Frame>, s: int, t: int)
    requires s <= t
    ensures After(After(log, s), t) == After(log, t)
    decreases |log|
  {
    if log != [] {
      AfterTwice(log[1..], s, t);
      var tail := After(log[1..], s);
      if log[0].id.Some? && log[0].id.value > s {
        assert After(log, s) == [log[0]] + tail;
        assert After(log, s)[1..] == tail;
      }
    }
  }

  /** Asking after the last frame of a rising part gives what follows that part. */
  lemma {:induction false} AfterPart(part: seq<Frame>, more: seq<Frame>, last: int)
    requires Rising(part + more, last)
    ensures Rising(part, last) && LastId(part, last) >= last
    ensures After(part + more, LastId(part, last)) == more
    decreases |part|
  {
    if part == [] {
      assert part + more == more;
      Everything(more, last);
    } else {
      assert (part + more)[1..] == part[1..] + more;
      AfterPart(part[1..], more, part[0].id.value);
    }
  }

  lemma {:induction false} Everything(frames: seq<Frame>, last: int)
    requires Rising(frames, last)
    ensures After(frames, last) == frames
    decreases |frames|
  {
    if frames != [] {
      EverythingFrom(frames[1..], frames[0].id.value, last);
      assert frames == [frames[0]] + frames[1..];
    }
  }

  lemma {:induction false} EverythingFrom(frames: seq<Frame>, last: int, since: int)
    requires Rising(frames, last) && since <= last
    ensures After(frames, since) == frames
    decreases |frames|
  {
    if frames != [] {
      EverythingFrom(frames[1..], frames[0].id.value, since);
      assert frames == [frames[0]] + frames[1..];
    }
  }

  // ----- Reading frames back -----

  /** Frames whose saved ones rise read back as exactly their events. */
  lemma {:induction false} DecodeFrames<P>(frames: seq<Frame>, last: int, json: string -> Option<P>)
    requires AllWellFormed(frames, json)
    requires Rising(Saved(frames), last)
    ensures Decode(BlockTexts(frames), last, json) == EventsOf(frames, json)
    ensures LastSeen(EventsOf(frames, json), last) == LastId(Saved(frames), last)
    decreases |frames|
  {
    hide WellFormed, BlockText, Parse;
    if frames != [] {
      var f := frames[0];
      var texts := BlockTexts(frames);
      assert texts[0] == BlockText(f) && texts[1..] == BlockTexts(frames[1..]);
      assert f.id.Some? ==> Saved(frames)[0] == f && Saved(frames)[1..] == Saved(frames[1..]);
      FrameRoundTrip(f, last, json);
      var next := if f.id.Some? then f.id.value as int else last;
      DecodeFrames(frames[1..], next, json);
      var events := EventsOf(frames, json);
      assert events[0] == EventOf(f, json) && events[1..] == EventsOf(frames[1..], json);
    }
  }

  lemma {:induction false} SavedOfEvents<P>(frames: seq<Frame>, json: string -> Option<P>)
    requires AllWellFormed(frames, json)
    ensures AllWellFormed(Saved(frames), json)
    ensures SavedEvents(EventsOf(frames, json)) == EventsOf(Saved(frames), json)
    decreases |frames|
  {
    hide WellFormed;
    if frames != [] {
      SavedOfEvents(frames[1..], json);
      var events := EventsOf(frames, json);
      assert events[1..] == EventsOf(frames[1..], json);
      if frames[0].id.Some? {
        assert Saved(frames)[0] == frames[0] && Saved(frames)[1..] == Saved(frames[1..]);
      }
    }
  }

  lemma {:induction false} SavedAppend(a: seq<Frame>, b: seq<Frame>)
    ensures Saved(a + b) == Saved(a) + Saved(b)
    decreases |a|
  {
    if a == [] {
      assert a + b == b;
    } else {
      assert (a + b)[1..] == a[1..] + b;
      SavedAppend(a[1..], b);
    }
  }

  lemma {:induction false} SavedEventsAppend<P>(a: seq<Event<P>>, b: seq<Event<P>>)
    ensures SavedEvents(a + b) == SavedEvents(a) + SavedEvents(b)
    decreases |a|
  {
    if a == [] {
      assert a + b == b;
    } else {
      assert (a + b)[1..] == a[1..] + b;
      SavedEventsAppend(a[1..], b);
    }
  }

  lemma {:induction false} EventsAppend<P>(a: seq<Frame>, b: seq<Frame>, json: string -> Option<P>)
    requires AllWellFormed(a, json) && AllWellFormed(b, json)
    ensures AllWellFormed(a + b, json)
    ensures EventsOf(a + b, json) == EventsOf(a, json) + EventsOf(b, json)
    decreases |a|
  {
    hide WellFormed;
    if a == [] {
      assert a + b == b;
    } else {
      assert (a + b)[1..] == a[1..] + b;
      EventsAppend(a[1..], b, json);
    }
  }

  // ----- The protocol -----

  /**
   * A connection carries some frames, cut off anywhere; the saved ones among them are the run's
   * next after `since`. Frames that are not saved may stand anywhere between them.
   */
  ghost predicate Carries<P>(
    c: Connection, frames: seq<Frame>, log: seq<Frame>, since: int, json: string -> Option<P>)
  {
    && AllWellFormed(frames, json)
    && Saved(frames) <= After(log, since)
    && Received(c) <= EncodeAll(frames)
  }

  /** The same with nothing cut off and nothing saved left out. */
  ghost predicate CarriesAll<P>(
    c: Connection, frames: seq<Frame>, log: seq<Frame>, since: int, json: string -> Option<P>)
  {
    && AllWellFormed(frames, json)
    && Saved(frames) == After(log, since)
    && Received(c) == EncodeAll(frames)
  }

  ghost predicate Delivers<P>(c: Connection, log: seq<Frame>, since: int, json: string -> Option<P>) {
    exists frames :: Carries(c, frames, log, since, json)
  }

  ghost predicate DeliversAll<P>(c: Connection, log: seq<Frame>, since: int, json: string -> Option<P>) {
    exists frames :: CarriesAll(c, frames, log, since, json)
  }

  ghost predicate ServesLog<P>(resume: Endpoint, log: seq<Frame>, json: string -> Option<P>) {
    forall n: nat, since: int :: resume(n, since).Serves? ==> Delivers(resume(n, since).connection, log, since, json)
  }

  /** The last sequence number seen once this connection is over. */
  ghost function SeenAfter<P>(c: Connection, last: int, json: string -> Option<P>): int {
    LastSeen(Decode(Finished(Received(c)), last, json), last)
  }

  /** Some connection of the run, this one or a resumed one, delivers all it was asked for. */
  ghost predicate ReachesEnd<P>(
    c: Connection, last: int, attempts: nat, max: nat, resume: Endpoint, log: seq<Frame>, json: string -> Option<P>)
    requires attempts <= max
    decreases max - attempts
  {
    || DeliversAll(c, log, last, json)
    || (&& Closing(c) != Broken(true) && attempts < max && resume(attempts, SeenAfter(c, last, json)).Serves?
        && ReachesEnd(resume(attempts, SeenAfter(c, last, json)).connection, SeenAfter(c, last, json), attempts + 1,
                      max, resume, log, json))
  }

  /** One connection: the events it gives are a start of what it was asked for, and the rest is still to come. */
  lemma OneConnection<P>(
    c: Connection, frames: seq<Frame>, log: seq<Frame>, last: int, json: string -> Option<P>
  ) returns (got: seq<Frame>, left: seq<Frame>)
    requires IsLog(log, json) && Carries(c, frames, log, last, json)
    ensures After(log, last) == got + left
    ensures AllWellFormed(got, json) && AllWellFormed(left, json)
    ensures SavedEvents(Decode(Finished(Received(c)), last, json)) == EventsOf(got, json)
    ensures After(log, SeenAfter(c, last, json)) == left
    ensures CarriesAll(c, frames, log, last, json) ==> left == []
  {
    hide WellFormed, Decode, Finished, Encode, BlockText, LastSeen, Saved, After, EventsOf, EncodeAll, BlockTexts,
      Rising, LastId;
    var k := CutAnywhere(frames, Received(c), json);
    var read := frames[..k];
    assert frames == read + frames[k..];
    SavedAppend(read, frames[k..]);
    got := Saved(read);
    left := After(log, last)[|got|..];
    assert After(log, last) == got + left;
    AfterRises(log, 0, last, json);
    AfterPart(got, left, last);
    DecodeFrames(read, last, json);
    SavedOfEvents(read, json);
    AfterTwice(log, last, LastId(got, last));
    if CarriesAll(c, frames, log, last, json) {
      assert read == frames;
    }
  }

  /**
   * What a run yields under a sequence number is a prefix of the run's log, whatever breaks where:
   * in order, nothing twice, nothing skipped. It is all of the log once any connection got to its end.
   */
  lemma {:induction false} YieldsThePrefix<P>(
    c: Connection, last: int, attempts: nat, max: nat, resume: Endpoint, log: seq<Frame>, json: string -> Option<P>)
    requires attempts <= max
    requires IsLog(log, json) && ServesLog(resume, log, json) && Delivers(c, log, last, json)
    ensures AllWellFormed(After(log, last), json)
    ensures SavedEvents(Rest(c, "", last, attempts, max, resume, json)) <= EventsOf(After(log, last), json)
    ensures ReachesEnd(c, last, attempts, max, resume, log, json) ==>
              SavedEvents(Rest(c, "", last, attempts, max, resume, json)) == EventsOf(After(log, last), json)
    decreases max - attempts
  {
    hide WellFormed, Decode, Blocks, Encode, LastSeen, After, Rising, SavedEvents;
    var frames :| Carries(c, frames, log, last, json)
                  && (DeliversAll(c, log, last, json) ==> CarriesAll(c, frames, log, last, json))
      by { AWitness(c, log, last, json); }
    var got, left := OneConnection(c, frames, log, last, json);
    EventsAppend(got, left, json);
    assert "" + Received(c) == Received(c);
    var events, seen := Decode(Finished(Received(c)), last, json), SeenAfter(c, last, json);
    assert DeliversAll(c, log, last, json) ==> EventsOf(left, json) == [];
    if !(Closing(c) == Broken(true) || attempts == max) && resume(attempts, seen).Serves? {
      var next := resume(attempts, seen).connection;
      YieldsThePrefix(next, seen, attempts + 1, max, resume, log, json);
      SavedEventsAppend(events, Rest(next, "", seen, attempts + 1, max, resume, json));
    }
  }

  lemma AWitness<P>(c: Connection, log: seq<Frame>, last: int, json: string -> Option<P>)
    requires Delivers(c, log, last, json)
    ensures exists frames :: Carries(c, frames, log, last, json)
              && (DeliversAll(c, log, last, json) ==> CarriesAll(c, frames, log, last, json))
  {
    if DeliversAll(c, log, last, json) {
      var frames :| CarriesAll(c, frames, log, last, json);
      assert Carries(c, frames, log, last, json);
    } else {
      var frames :| Carries(c, frames, log, last, json);
    }
  }

  /** The same for what the consumer has yielded when it stops, at any point. */
  lemma ConsumerSeesThePrefix<P>(
    events: seq<Event<P>>, c: Connection, max: nat, resume: Endpoint, log: seq<Frame>, json: string -> Option<P>)
    requires events <= Rest(c, "", 0, 0, max, resume, json)
    requires IsLog(log, json) && ServesLog(resume, log, json) && Delivers(c, log, 0, json)
    ensures SavedEvents(events) <= EventsOf(log, json)
    ensures events == Rest(c, "", 0, 0, max, resume, json) && ReachesEnd(c, 0, 0, max, resume, log, json) ==>
              SavedEvents(events) == EventsOf(log, json)
  {
    hide WellFormed, Rest;
    var whole := Rest(c, "", 0, 0, max, resume, json);
    YieldsThePrefix(c, 0, 0, max, resume, log, json);
    Everything(log, 0);
    assert whole == events + whole[|events|..];
    SavedEventsAppend(events, whole[|events|..]);
  }
}
