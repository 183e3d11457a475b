/**
 * The resumable event stream: reads a connection chunk by chunk, and when it breaks or ends asks
 * for the events after the last one seen, a limited number of times.
 */
module SseConsumer {
  import opened SseFraming
  import opened Text
  import opened Wrappers

  /** One read of a connection. */
  datatype Read = Chunk(text: string) | Done | Broken(abort: bool)

  /** A connection as its reads; past the last one it is done. */
  type Connection = seq<Read>

  /** How the server answers when asked to go on after a frame. */
  datatype Reply = Serves(connection: Connection) | Rejected | Threw

  /** The resume endpoint: the number of the request and the last sequence number seen. */
  type Endpoint = (nat, int) -> Reply

  datatype Ending = Stopped | Ended | Failed | Aborted

  // ----- What a run of the consumer yields -----

  function FirstRead(c: Connection): Read { if c == [] then Done else c[0] }

  /** The text that arrives before the connection stops delivering. */
  function Received(c: Connection): string
    decreases |c|
  {
    if c == [] || !c[0].Chunk? then "" else c[0].text + Received(c[1..])
  }

  /** How the connection stops delivering. */
  function Closing(c: Connection): Read
    decreases |c|
  {
    if c == [] then Done else if c[0].Chunk? then Closing(c[1..]) else c[0]
  }

  function NextSeq<P>(last: int, e: Event<P>): int { if e.id.Some? then e.id.value else last }

  /** The events of finished blocks, read one after another. */
  function Decode<P>(blocks: seq<string>, last: int, json: string -> Option<P>): seq<Event<P>>
    decreases |blocks|
  {
    if blocks == [] then []
    else
      match Parse(blocks[0], last, json)
      case None => Decode(blocks[1..], last, json)
      case Some(e) => [e] + Decode(blocks[1..], NextSeq(last, e), json)
  }

  /** The last sequence number seen once some events have been read. */
  function LastSeen<P>(events: seq<Event<P>>, last: int): int
    decreases |events|
  {
    if events == [] then last else LastSeen(events[1..], NextSeq(last, events[0]))
  }

  function Finished(text: string): seq<string> { Front(Blocks(text)) }

  /** Everything the consumer would yield, never stopped, from a connection and a leftover buffer. */
  function Rest<P>(
    c: Connection, buffer: string, last: int, attempts: nat, max: nat, resume: Endpoint, json: string -> Option<P>
  ): seq<Event<P>>
    requires attempts <= max
    decreases max - attempts
  {
    var events := Decode(Finished(buffer + Received(c)), last, json);
    var seen := LastSeen(events, last);
    if Closing(c) == Broken(true) || attempts == max then events
    else
      match resume(attempts, seen)
      case Serves(next) => events + Rest(next, "", seen, attempts + 1, max, resume, json)
      case _ => events
  }

  /** How such a run ends, and the sequence numbers it resumes from. */
  function Fate<P>(
    c: Connection, buffer: string, last: int, attempts: nat, max: nat, resume: Endpoint, json: string -> Option<P>
  ): (Ending, seq<int>)
    requires attempts <= max
    decreases max - attempts
  {
    var seen := LastSeen(Decode(Finished(buffer + Received(c)), last, json), last);
    var failed := if Closing(c).Broken? then Failed else Ended;
    if Closing(c) == Broken(true) then (Aborted, [])
    else if attempts == max then (failed, [])
    else
      match resume(attempts, seen)
      case Serves(next) =>
        var (ending, sinces) := Fate(next, "", seen, attempts + 1, max, resume, json);
        (ending, [seen] + sinces)
      case _ => (failed, [seen])
  }

  // ----- Reading in pieces -----

  /** Blocks read in two goes give the events of both, the second from where the first left off. */
  lemma {:induction false} DecodeAppend<P>(a: seq<string>, b: seq<string>, last: int, json: string -> Option<P>)
    ensures Decode(a + b, last, json)
            == Decode(a, last, json) + Decode(b, LastSeen(Decode(a, last, json), last), json)
    decreases |a|
  {
    hide Parse;
    if a == [] {
      assert a + b == b;
    } else {
      assert (a + b)[1..] == a[1..] + b;
      match Parse(a[0], last, json) {
        case None => DecodeAppend(a[1..], b, last, json);
        case Some(e) =>
          var seen := NextSeq(last, e);
          DecodeAppend(a[1..], b, seen, json);
          var head, tail := Decode(a[1..], seen, json), Decode(b, LastSeen(Decode(a[1..], seen, json), seen), json);
          assert ([e] + head)[1..] == head;
          assert [e] + (head + tail) == ([e] + head) + tail;
      }
    }
  }

  lemma {:induction false} LastSeenAppend<P>(a: seq<Event<P>>, b: seq<Event<P>>, last: int)
    ensures LastSeen(a + b, last) == LastSeen(b, LastSeen(a, last))
    decreases |a|
  {
    if a == [] {
      assert a + b == b;
    } else {
      assert (a + b)[1..] == a[1..] + b;
      LastSeenAppend(a[1..], b, NextSeq(last, a[0]));
    }
  }

  /** Taking one chunk off the connection: its finished blocks now, its unfinished one kept. */
  lemma TakeChunk<P>(
    c: Connection, buffer: string, last: int, attempts: nat, max: nat, resume: Endpoint, json: string -> Option<P>)
    requires attempts <= max
    requires c != [] && c[0].Chunk?
    ensures var blocks := Blocks(buffer + c[0].text);
            var events := Decode(Front(blocks), last, json);
            && Rest(c, buffer, last, attempts, max, resume, json)
               == events + Rest(c[1..], Last(blocks), LastSeen(events, last), attempts, max, resume, json)
            && Fate(c, buffer, last, attempts, max, resume, json)
               == Fate(c[1..], Last(blocks), LastSeen(events, last), attempts, max, resume, json)
  {
    hide Blocks, Decode, LastSeen;
    var text, more := buffer + c[0].text, Received(c[1..]);
    var blocks := Blocks(text);
    assert buffer + Received(c) == text + more;
    BlocksAppend(text, more);
    var later := Blocks(Last(blocks) + more);
    assert Front(Front(blocks) + later) == Front(blocks) + Front(later);
    DecodeAppend(Front(blocks), Front(later), last, json);
    var now := Decode(Front(blocks), last, json);
    var then_ := Decode(Front(later), LastSeen(now, last), json);
    LastSeenAppend(now, then_, last);
    assert Finished(buffer + Received(c)) == Front(blocks) + Front(later);
    assert Finished(Last(blocks) + more) == Front(later);
    var seen := LastSeen(now + then_, last);
    if !(Closing(c) == Broken(true) || attempts == max) && resume(attempts, seen).Serves? {
      var after := Rest(resume(attempts, seen).connection, "", seen, attempts + 1, max, resume, json);
      assert (now + then_) + after == now + (then_ + after);
    }
  }

  /** A connection that has stopped delivering leaves what a resumed one would give. */
  lemma TakeClosing<P>(
    c: Connection, buffer: string, last: int, attempts: nat, max: nat, resume: Endpoint, json: string -> Option<P>)
    requires attempts <= max && !FirstRead(c).Chunk?
    requires Blocks(buffer) == [buffer]
    ensures Rest(c, buffer, last, attempts, max, resume, json)
            == if FirstRead(c) == Broken(true) || attempts == max then []
               else match resume(attempts, last)
                    case Serves(next) => Rest(next, "", last, attempts + 1, max, resume, json)
                    case _ => []
    ensures var fate := Fate(c, buffer, last, attempts, max, resume, json);
            var failed := if FirstRead(c).Broken? then Failed else Ended;
            if FirstRead(c) == Broken(true) then fate == (Aborted, [])
            else if attempts == max then fate == (failed, [])
            else if resume(attempts, last).Serves? then
              var next := Fate(resume(attempts, last).connection, "", last, attempts + 1, max, resume, json);
              fate == (next.0, [last] + next.1)
            else fate == (failed, [last])
  {
    hide Blocks, Parse;
    assert buffer + Received(c) == buffer;
    assert Finished(buffer) == [];
    assert Closing(c) == FirstRead(c);
  }

  /** What is left over after the last break holds no break. */
  lemma {:induction false} LeftoverIsPlain(s: string)
    ensures Blocks(Last(Blocks(s))) == [Last(Blocks(s))]
    decreases |s|
  {
    if FirstBreak(s) < |s| {
      LeftoverIsPlain(s[FirstBreak(s) + 2..]);
    }
  }

  lemma {:induction false} LastSeenGrows<P>(blocks: seq<string>, last: int, json: string -> Option<P>)
    ensures LastSeen(Decode(blocks, last, json), last) >= last
    decreases |blocks|
  {
    hide Split;
    if blocks != [] {
      match Parse(blocks[0], last, json) {
        case None => LastSeenGrows(blocks[1..], last, json);
        case Some(e) =>
          IdsArePastLast(Split(blocks[0], '\n'), last);
          LastSeenGrows(blocks[1..], NextSeq(last, e), json);
          var rest := Decode(blocks[1..], NextSeq(last, e), json);
          assert ([e] + rest)[1..] == rest;
      }
    }
  }

  lemma {:induction false} IdsArePastLast(lines: seq<string>, prevSeq: int)
    ensures TakeLines(lines, prevSeq).id.Some? ==> TakeLines(lines, prevSeq).id.value > prevSeq
    decreases |lines|
  {
    if lines != [] {
      IdsArePastLast(Front(lines), prevSeq);
    }
  }

  // ----- The consumer -----

  /** The caller's `shouldStop`, asked for the n-th time. */
  type StopSignal = nat -> bool

  lemma DecodeOne<P>(blocks: seq<string>, k: nat, last: int, json: string -> Option<P>)
    requires k < |blocks|
    ensures Decode(blocks[k..], last, json) ==
            match Parse(blocks[k], last, json)
            case None => Decode(blocks[k + 1..], last, json)
            case Some(e) => [e] + Decode(blocks[k + 1..], NextSeq(last, e), json)
  {
    hide Parse;
    assert blocks[k..][1..] == blocks[k + 1..];
  }

  lemma DecodeMore<P>(blocks: seq<string>, k: nat, last: int, json: string -> Option<P>)
    requires k < |blocks|
    ensures var before := Decode(blocks[..k], last, json);
            Decode(blocks[..k + 1], last, json) ==
            match Parse(blocks[k], LastSeen(before, last), json)
            case None => before
            case Some(e) => before + [e]
  {
    hide Parse, LastSeen;
    assert blocks[..k + 1] == blocks[..k] + [blocks[k]];
    DecodeAppend(blocks[..k], [blocks[k]], last, json);
    assert [blocks[k]][1..] == [];
  }

  /**
   * Yields the events of finished blocks one by one. It asks before each block whether to stop, and
   * stops at the first yes, with the events of the blocks before.
   */
  method YieldEvents<P>(
    rawEvents: seq<string>, lastSeen: int, stop: StopSignal, askedBefore: nat, json: string -> Option<P>)
    returns (events: seq<Event<P>>, last: int, asked: nat, stopped: bool)
    ensures askedBefore <= asked && asked - askedBefore <= |rawEvents|
    ensures events <= Decode(rawEvents, lastSeen, json)
    ensures |events| + (if stopped then 1 else 0) <= asked - askedBefore
    ensures forall n :: askedBefore <= n < asked ==> (stop(n) <==> stopped && n == asked - 1)
    ensures !stopped ==> asked - askedBefore == |rawEvents|
    ensures !stopped ==> events == Decode(rawEvents, lastSeen, json) && last == LastSeen(events, lastSeen)
    ensures stopped ==> asked > askedBefore && events == Decode(rawEvents[..asked - askedBefore - 1], lastSeen, json)
  {
    hide Parse, Decode;
    events, last, asked := [], lastSeen, askedBefore;
    ghost var whole := Decode(rawEvents, lastSeen, json);
    assert rawEvents[0..] == rawEvents && rawEvents[..0] == [];
    NothingToDecode(lastSeen, json);
    var k := 0;
    while k < |rawEvents|
      invariant 0 <= k <= |rawEvents| && asked == askedBefore + k && |events| <= k
      invariant forall n :: askedBefore <= n < asked ==> !stop(n)
      invariant events == Decode(rawEvents[..k], lastSeen, json)
      invariant whole == events + Decode(rawEvents[k..], last, json)
      invariant last == LastSeen(events, lastSeen)
    {
      asked := asked + 1;
      if stop(asked - 1) {
        return events, last, asked, true;
      }
      DecodeOne(rawEvents, k, last, json);
      DecodeMore(rawEvents, k, lastSeen, json);
      var parsed := ParseSseEvent(rawEvents[k], last, json);
      k := k + 1;
      if parsed.None? {
        continue;
      }
      LastSeenAppend(events, [parsed.value], lastSeen);
      assert [parsed.value][1..] == [];
      ghost var later := Decode(rawEvents[k..], NextSeq(last, parsed.value), json);
      assert events + ([parsed.value] + later) == (events + [parsed.value]) + later;
      if parsed.value.id.Some? {
        last := parsed.value.id.value;
      }
      events := events + [parsed.value];
    }
    assert rawEvents[k..] == [] && rawEvents[..k] == rawEvents;
    NothingToDecode(last, json);
    stopped := false;
  }

  lemma NothingToDecode<P>(last: int, json: string -> Option<P>)
    ensures Decode<P>([], last, json) == []
  {
  }

  lemma EmptyBuffer()
    ensures Blocks("") == [""]
  {
  }

  /**
   * What the ending and the numbers asked from say about the connections there were: each but the
   * last was resumed by the next, none of those was aborted, and the last could not be. It ended in
   * an abort, in failure when it broke, or else in order; and it was not resumed since it was aborted,
   * no attempt was left, or the server did not serve.
   */
  ghost predicate Connected(
    cs: seq<Connection>, sinces: seq<int>, ending: Ending, attempts: nat, max: nat, resume: Endpoint)
  {
    var n := |cs| - 1;
    && n >= 0 && n <= |sinces| <= n + 1 && attempts + n <= max
    && (forall i: nat :: i < n ==>
          Closing(cs[i]) != Broken(true) && resume(attempts + i, sinces[i]) == Serves(cs[i + 1]))
    && (Closing(cs[n]) == Broken(true) <==> ending == Aborted)
    && (Closing(cs[n]) == Broken(false) <==> ending == Failed)
    && (!Closing(cs[n]).Broken? <==> ending == Ended)
    && (|sinces| == n <==> ending == Aborted || attempts + n == max)
    && (|sinces| == n + 1 ==> !resume(attempts + n, sinces[n]).Serves?)
  }

  lemma {:induction false} FateMeans<P>(
    c: Connection, buffer: string, last: int, attempts: nat, max: nat, resume: Endpoint, json: string -> Option<P>)
    returns (cs: seq<Connection>)
    requires attempts <= max
    ensures var (ending, sinces) := Fate(c, buffer, last, attempts, max, resume, json);
            Connected(cs, sinces, ending, attempts, max, resume) && cs[0] == c
    decreases max - attempts
  {
    hide Decode, LastSeen, Finished, Received, Closing;
    var seen := LastSeen(Decode(Finished(buffer + Received(c)), last, json), last);
    cs := [c];
    if Closing(c) != Broken(true) && attempts < max && resume(attempts, seen).Serves? {
      var next := resume(attempts, seen).connection;
      var later := FateMeans(next, "", seen, attempts + 1, max, resume, json);
      var (ending, sinces) := Fate(next, "", seen, attempts + 1, max, resume, json);
      cs := [c] + later;
      OneMoreConnection(c, later, seen, sinces, ending, attempts, max, resume);
    } else {
      NoOther(c);
    }
  }

  lemma NoOther(c: Connection)
    ensures !Closing(c).Chunk?
    decreases |c|
  {
    if c != [] && c[0].Chunk? {
      NoOther(c[1..]);
    }
  }

  lemma OneMoreConnection(
    c: Connection, later: seq<Connection>, seen: int, sinces: seq<int>, ending: Ending, attempts: nat, max: nat,
    resume: Endpoint)
    requires Connected(later, sinces, ending, attempts + 1, max, resume)
    requires Closing(c) != Broken(true) && resume(attempts, seen) == Serves(later[0])
    ensures Connected([c] + later, [seen] + sinces, ending, attempts, max, resume)
  {
    hide Closing;
    var (cs, all, n) := ([c] + later, [seen] + sinces, |later|);
    forall i: nat | i < n
      ensures Closing(cs[i]) != Broken(true) && resume(attempts + i, all[i]) == Serves(cs[i + 1])
    {
      if i > 0 {
        assert resume(attempts + 1 + (i - 1), sinces[i - 1]) == Serves(later[i]);
      }
    }
    assert cs[n] == later[n - 1];
    if |sinces| == n {
      assert all[n] == sinces[n - 1];
    }
  }

  /** What a run will have yielded, asked and ended with, and where it has got to, fit together. */
  ghost predicate OnCourse<P>(
    whole: seq<Event<P>>, fate: (Ending, seq<int>), events: seq<Event<P>>, sinces: seq<int>,
    c: Connection, buffer: string, last: int, attempts: nat, max: nat, resume: Endpoint, json: string -> Option<P>)
  {
    && attempts <= max
    && whole == events + Rest(c, buffer, last, attempts, max, resume, json)
    && fate.0 == Fate(c, buffer, last, attempts, max, resume, json).0
    && fate.1 == sinces + Fate(c, buffer, last, attempts, max, resume, json).1
  }

  lemma CourseChunk<P>(
    whole: seq<Event<P>>, fate: (Ending, seq<int>), events: seq<Event<P>>, sinces: seq<int>,
    c: Connection, buffer: string, last: int, attempts: nat, max: nat, resume: Endpoint, json: string -> Option<P>)
    requires OnCourse(whole, fate, events, sinces, c, buffer, last, attempts, max, resume, json)
    requires c != [] && c[0].Chunk?
    ensures var blocks := Blocks(buffer + c[0].text);
            var now := Decode(Front(blocks), last, json);
            && OnCourse(whole, fate, events + now, sinces, c[1..], Last(blocks), LastSeen(now, last), attempts, max,
                        resume, json)
            && events + now <= whole && sinces <= fate.1
  {
    hide Rest, Fate, Blocks, Decode, LastSeen;
    TakeChunk(c, buffer, last, attempts, max, resume, json);
    var blocks := Blocks(buffer + c[0].text);
    var now := Decode(Front(blocks), last, json);
    var later := Rest(c[1..], Last(blocks), LastSeen(now, last), attempts, max, resume, json);
    assert events + (now + later) == (events + now) + later;
  }

  lemma CourseClosing<P>(
    whole: seq<Event<P>>, fate: (Ending, seq<int>), events: seq<Event<P>>, sinces: seq<int>,
    c: Connection, buffer: string, last: int, attempts: nat, max: nat, resume: Endpoint, json: string -> Option<P>)
    requires OnCourse(whole, fate, events, sinces, c, buffer, last, attempts, max, resume, json)
    requires !FirstRead(c).Chunk? && Blocks(buffer) == [buffer]
    ensures var failed := if FirstRead(c).Broken? then Failed else Ended;
            && events <= whole && sinces <= fate.1
            && if FirstRead(c) == Broken(true) then events == whole && fate == (Aborted, sinces)
               else if attempts == max then events == whole && fate == (failed, sinces)
               else
                 && sinces + [last] <= fate.1
                 && if resume(attempts, last).Serves?
                    then OnCourse(whole, fate, events, sinces + [last], resume(attempts, last).connection, "", last,
                                  attempts + 1, max, resume, json)
                    else events == whole && fate == (failed, sinces + [last])
  {
    hide Rest, Fate, Blocks;
    TakeClosing(c, buffer, last, attempts, max, resume, json);
    assert sinces + [] == sinces && events + [] == events;
    if attempts < max && resume(attempts, last).Serves? {
      var next := Fate(resume(attempts, last).connection, "", last, attempts + 1, max, resume, json);
      assert sinces + ([last] + next.1) == (sinces + [last]) + next.1;
    }
  }

  /**
   * Reads a stream, resuming it when it breaks or ends, until the caller says stop or no more
   * resuming is allowed. What it yields is a prefix of the whole stream's events, and all of them
   * when the caller never said stop; it resumes at most as often as allowed, each time from the
   * last sequence number seen, and ends as the connections say. It asks before each event and each
   * resume; the first yes is the last time it asks, and nothing is yielded or resumed after it.
   */
  method ConsumeSseStream<P>(
    initial: Option<Connection>, resume: Endpoint, stop: StopSignal, max: nat, json: string -> Option<P>
  ) returns (events: seq<Event<P>>, sinces: seq<int>, ending: Ending, asked: nat)
    ensures initial.None? ==> events == [] && sinces == [] && ending == Failed
    ensures |sinces| <= max
    ensures initial.Some? ==>
              && events <= Rest(initial.value, "", 0, 0, max, resume, json)
              && sinces <= Fate(initial.value, "", 0, 0, max, resume, json).1
              && ((forall n :: 0 <= n < asked ==> !stop(n)) ==>
                    && events == Rest(initial.value, "", 0, 0, max, resume, json)
                    && (ending, sinces) == Fate(initial.value, "", 0, 0, max, resume, json))
    ensures forall i :: 0 < i < |sinces| ==> sinces[i - 1] <= sinces[i]
    ensures forall n :: 0 <= n < asked - 1 ==> !stop(n)
    ensures ending == Stopped ==> asked > 0 && stop(asked - 1)
    ensures |events| + |sinces| + (if asked > 0 && stop(asked - 1) then 1 else 0) <= asked
  {
    hide Rest, Fate, Blocks, Parse, Decode, LastSeen, OnCourse, Front, Last, AskedInOrder;
    events, sinces, asked := [], [], 0;
    if initial.None? {
      return events, sinces, Failed, asked;
    }
    ghost var whole := Rest(initial.value, "", 0, 0, max, resume, json);
    ghost var fate := Fate(initial.value, "", 0, 0, max, resume, json);
    var reader := initial.value;
    var buffer := "";
    var lastSeenSeq := 0;
    var resumeAttempts := 0;
    EmptyBuffer();
    StartOfCourse(reader, max, resume, json);
    while true
      invariant |sinces| == resumeAttempts <= max
      invariant OnCourse(whole, fate, events, sinces, reader, buffer, lastSeenSeq, resumeAttempts, max, resume, json)
      invariant Blocks(buffer) == [buffer]
      invariant AskedInOrder(sinces, lastSeenSeq)
      invariant |events| + |sinces| <= asked && forall n :: 0 <= n < asked ==> !stop(n)
      decreases max - resumeAttempts, |reader|
    {
      var chunk := FirstRead(reader);
      if !chunk.Chunk? {
        CourseClosing(whole, fate, events, sinces, reader, buffer, lastSeenSeq, resumeAttempts, max, resume, json);
        AskedOnce(sinces, lastSeenSeq);
        if chunk == Broken(true) {
          return events, sinces, Aborted, asked;
        }
        if chunk.Done? {
          asked := asked + 1;
          if stop(asked - 1) {
            return events, sinces, Stopped, asked;
          }
        }
        asked := asked + 1;
        var failed := if chunk.Broken? then Failed else Ended;
        if stop(asked - 1) || resumeAttempts >= max {
          return events, sinces, failed, asked;
        }
        var reply := resume(resumeAttempts, lastSeenSeq);
        resumeAttempts := resumeAttempts + 1;
        sinces := sinces + [lastSeenSeq];
        if !reply.Serves? {
          return events, sinces, failed, asked;
        }
        reader := reply.connection;
        buffer := "";
        EmptyBuffer();
      } else {
        CourseChunk(whole, fate, events, sinces, reader, buffer, lastSeenSeq, resumeAttempts, max, resume, json);
        LeftoverIsPlain(buffer + chunk.text);
        var blocks := Blocks(buffer + chunk.text);
        LastSeenGrows(Front(blocks), lastSeenSeq, json);
        buffer := Last(blocks);
        reader := reader[1..];
        var yielded, last, asked', stopped := YieldEvents(Front(blocks), lastSeenSeq, stop, asked, json);
        AskedEarlier(sinces, lastSeenSeq, LastSeen(Decode(Front(blocks), lastSeenSeq, json), lastSeenSeq));
        events := events + yielded;
        asked := asked';
        if stopped {
          assert stop(asked - 1);
          return events, sinces, Stopped, asked;
        }
        lastSeenSeq := last;
      }
    }
  }

  /** Each resume asks from no earlier than the one before, and none from past what was seen. */
  ghost predicate AskedInOrder(sinces: seq<int>, last: int) {
    && (forall i :: 0 < i < |sinces| ==> sinces[i - 1] <= sinces[i])
    && (|sinces| > 0 ==> sinces[|sinces| - 1] <= last)
  }

  lemma StartOfCourse<P>(c: Connection, max: nat, resume: Endpoint, json: string -> Option<P>)
    ensures OnCourse(Rest(c, "", 0, 0, max, resume, json), Fate(c, "", 0, 0, max, resume, json), [], [],
                     c, "", 0, 0, max, resume, json)
    ensures AskedInOrder([], 0)
  {
    hide Rest, Fate;
  }

  lemma AskedOnce(sinces: seq<int>, last: int)
    requires AskedInOrder(sinces, last)
    ensures AskedInOrder(sinces + [last], last)
    ensures forall i :: 0 < i < |sinces| ==> sinces[i - 1] <= sinces[i]
    ensures forall i :: 0 < i < |sinces + [last]| ==> (sinces + [last])[i - 1] <= (sinces + [last])[i]
  {
  }

  lemma AskedEarlier(sinces: seq<int>, last: int, later: int)
    requires AskedInOrder(sinces, last) && last <= later
    ensures AskedInOrder(sinces, later)
    ensures forall i :: 0 < i < |sinces| ==> sinces[i - 1] <= sinces[i]
  {
  }
}
