/**
 * The server's side of a resumed connection: the part of the run's log the client lacks, and then
 * what the run adds to it, query by query, until it ends or nobody listens.
 */
module SseReplay {
  import opened SseConsumer
  import opened SseFraming
  import opened SseResume
  import opened Wrappers

  /**
   * What the stream meets as time passes, one tick per look: how many rows of the log a query
   * finds (none when it fails), whether the run is active, whether the client is still there.
   */
  datatype World = World(rows: nat -> Option<nat>, active: nat -> Option<bool>, connected: nat -> bool)

  /** Rows are only ever added, all of them come from the log, and a client that left stays away. */
  ghost predicate Orderly(w: World, log: seq<Frame>, leaves: nat) {
    && (forall t: nat :: w.rows(t).Some? ==> w.rows(t).value <= |log|)
    && (forall t: nat, u: nat :: t < u && w.rows(t).Some? && w.rows(u).Some? ==> w.rows(t).value <= w.rows(u).value)
    && (forall t: nat, u: nat :: t < u && !w.connected(t) ==> !w.connected(u))
    && (forall t: nat :: leaves <= t ==> !w.connected(t))
  }

  /** A run saves its last event before it stops being active. */
  ghost predicate EndsSaved(w: World, log: seq<Frame>, activeAtStart: bool) {
    && (!activeAtStart ==> forall t: nat :: w.rows(t).Some? ==> w.rows(t).value == |log|)
    && (forall t: nat, u: nat :: t < u && w.active(t) == Some(false) && w.rows(u).Some? ==> w.rows(u).value == |log|)
  }

  datatype Finish = Closed | ClosedOnFailure | Errored | ClientLeft

  const REPLAY_FAILED := Frame(None, "done", "{\"error\":\"Resume replay failed\"}")
  const ALREADY_OVER := Frame(None, "done", "{\"resumed\":true,\"terminal\":true}")

  // ----- Asking again and again -----

  lemma {:induction false} AfterAppend(a: seq<Frame>, b: seq<Frame>, since: int)
    ensures After(a + b, since) == After(a, since) + After(b, since)
    decreases |a|
  {
    if a == [] {
      assert a + b == b;
    } else {
      assert (a + b)[1..] == a[1..] + b;
      AfterAppend(a[1..], b, since);
    }
  }

  lemma {:induction false} RisingPart(a: seq<Frame>, b: seq<Frame>, last: int)
    requires Rising(a + b, last)
    ensures Rising(a, last)
  {
    AfterPart(a, b, last);
  }

  /** Rows asked for after the last one forwarded continue what was forwarded. */
  lemma AskAgain<P>(log: seq<Frame>, n: nat, m: nat, since: int, json: string -> Option<P>)
    requires IsLog(log, json) && n <= m <= |log|
    ensures var part := After(log[..n], since);
            After(log[..m], since) == part + After(log[..m], LastId(part, since))
  {
    hide After, Rising, LastId, WellFormed;
    var part, more := After(log[..n], since), After(log[n..m], since);
    assert log[..m] == log[..n] + log[n..m] && log == log[..m] + log[m..];
    AfterAppend(log[..n], log[n..m], since);
    RisingPart(log[..m], log[m..], 0);
    AfterRises(log[..m], 0, since, json);
    AfterPart(part, more, since);
    AfterTwice(log[..m], since, LastId(part, since));
  }

  /** Fewer rows give a start of what more rows give. */
  lemma AfterStart(log: seq<Frame>, n: nat, since: int)
    requires n <= |log|
    ensures After(log[..n], since) <= After(log, since)
  {
    hide After;
    assert log == log[..n] + log[n..];
    AfterAppend(log[..n], log[n..], since);
  }

  lemma {:induction false} SavedAfter(log: seq<Frame>, since: int)
    ensures Saved(After(log, since)) == After(log, since)
    decreases |log|
  {
    if log != [] {
      SavedAfter(log[1..], since);
      if log[0].id.Some? && log[0].id.value > since {
        assert After(log, since)[0] == log[0] && After(log, since)[1..] == After(log[1..], since);
      }
    }
  }

  /** A start of frames that are all saved is all saved. */
  lemma {:induction false} SavedStart(part: seq<Frame>, whole: seq<Frame>)
    requires part <= whole && Saved(whole) == whole
    ensures Saved(part) == part
    decreases |part|
  {
    if part != [] {
      assert whole[0].id.Some? by {
        SavedLength(whole[1..]);
      }
      SavedStart(part[1..], whole[1..]);
    }
  }

  lemma {:induction false} SavedLength(frames: seq<Frame>)
    ensures |Saved(frames)| <= |frames|
    decreases |frames|
  {
    if frames != [] {
      SavedLength(frames[1..]);
    }
  }

  // ----- The stream -----

  /** Sends events until the client is gone; the place is kept either way. */
  method Forward(events: seq<Frame>, sentBefore: seq<Frame>, lastBefore: int, w: World, start: nat)
    returns (sent: seq<Frame>, lastSeq: int, now: nat)
    requires forall t: nat, u: nat :: t < u && !w.connected(t) ==> !w.connected(u)
    requires forall i :: 0 <= i < |events| ==> events[i].id.Some?
    ensures sentBefore <= sent <= sentBefore + events
    ensures lastSeq == LastId(events, lastBefore)
    ensures now >= start
    ensures |sent| < |sentBefore + events| ==> !w.connected(now)
    ensures !w.connected(start) ==> sent == sentBefore && !w.connected(now)
  {
    sent, lastSeq, now := sentBefore, lastBefore, start;
    var k := 0;
    while k < |events|
      invariant 0 <= k <= |events| && now >= start
      invariant sentBefore <= sent <= sentBefore + events[..k]
      invariant LastId(events[k..], lastSeq) == LastId(events, lastBefore)
      invariant |sent| < |sentBefore| + k ==> !w.connected(now)
      invariant !w.connected(start) ==> sent == sentBefore && !w.connected(now)
    {
      assert events[k..][1..] == events[k + 1..];
      if w.connected(now) {
        assert sent == sentBefore + events[..k];
        sent := sent + [events[k]];
        assert sent == sentBefore + events[..k + 1];
      }
      lastSeq := events[k].id.value;
      now := now + 1;
      k := k + 1;
    }
    assert events[..k] == events;
  }

  /** What has been forwarded is the log's rows after `since`, as far as the last query saw them. */
  ghost predicate Forwarded(sent: seq<Frame>, lastSeq: int, log: seq<Frame>, n: nat, since: int, here: bool) {
    && n <= |log|
    && lastSeq == LastId(After(log[..n], since), since)
    && sent <= After(log[..n], since)
    && (here ==> sent == After(log[..n], since))
  }

  /** One query and the sending of what it found. */
  method Poll<P>(
    log: seq<Frame>, found: nat, ghost n: nat, since: int, sentBefore: seq<Frame>, lastBefore: int, w: World,
    start: nat,
    ghost leaves: nat, ghost json: string -> Option<P>
  ) returns (sent: seq<Frame>, lastSeq: int, now: nat)
    requires IsLog(log, json) && Orderly(w, log, leaves)
    requires n <= found <= |log|
    requires Forwarded(sentBefore, lastBefore, log, n, since, w.connected(start))
    ensures Forwarded(sent, lastSeq, log, found, since, w.connected(now))
    ensures now >= start
  {
    hide After, Rising, LastId, WellFormed;
    AskAgain(log, n, found, since, json);
    ghost var part := After(log[..n], since);
    var events := After(log[..found], lastBefore);
    EventsAreSaved(log[..found], lastBefore);
    sent, lastSeq, now := Forward(events, sentBefore, lastBefore, w, start);
    LastIdAppend(part, events, since);
    if w.connected(start) {
      assert sentBefore == part;
    } else {
      assert part <= part + events;
    }
  }

  lemma {:induction false} EventsAreSaved(log: seq<Frame>, since: int)
    ensures forall i :: 0 <= i < |After(log, since)| ==> After(log, since)[i].id.Some?
    decreases |log|
  {
    if log != [] {
      EventsAreSaved(log[1..], since);
    }
  }

  lemma {:induction false} LastIdAppend(a: seq<Frame>, b: seq<Frame>, last: int)
    ensures LastId(a + b, last) == LastId(b, LastId(a, last))
    decreases |a|
  {
    if a == [] {
      assert a + b == b;
    } else {
      assert (a + b)[1..] == a[1..] + b;
      LastIdAppend(a[1..], b, if a[0].id.Some? then a[0].id.value else last);
    }
  }

  /** A synthetic frame without a number, sent if the client is still there. */
  function WithNotice(sent: seq<Frame>, notice: Frame, here: bool): seq<Frame> {
    if here then sent + [notice] else sent
  }

  /** The frames of one replay, notice included, are what a resumed connection may carry. */
  ghost predicate GoodReplay<P>(sent: seq<Frame>, log: seq<Frame>, since: int, json: string -> Option<P>) {
    AllWellFormed(sent, json) && Saved(sent) <= After(log, since)
  }

  lemma SentIsGood<P>(
    sent: seq<Frame>, lastSeq: int, log: seq<Frame>, n: nat, since: int, here: bool, notice: Frame,
    json: string -> Option<P>)
    requires IsLog(log, json) && Forwarded(sent, lastSeq, log, n, since, here)
    requires notice.id.None? && WellFormed(notice, json)
    ensures GoodReplay(sent, log, since, json) && GoodReplay(WithNotice(sent, notice, here), log, since, json)
    ensures here && n == |log| ==>
              Saved(sent) == After(log, since) && Saved(WithNotice(sent, notice, here)) == After(log, since)
  {
    hide After, Rising, LastId, WellFormed, Saved;
    AfterStart(log, n, since);
    SavedAfter(log, since);
    SavedStart(sent, After(log, since));
    AfterRises(log, 0, since, json);
    SavedAppend(sent, [notice]);
    SavedNothing(notice);
    assert log[..|log|] == log;
  }

  lemma SavedNothing(notice: Frame)
    requires notice.id.None?
    ensures Saved([notice]) == []
  {
    assert [notice][1..] == [];
  }

  lemma OrderlyNow(w: World, log: seq<Frame>, leaves: nat, t: nat, u: nat)
    requires Orderly(w, log, leaves)
    ensures w.connected(t) ==> t < leaves
    ensures t < u && w.connected(u) ==> w.connected(t)
    ensures w.rows(t).Some? ==> w.rows(t).value <= |log|
    ensures t < u && w.rows(t).Some? && w.rows(u).Some? ==> w.rows(t).value <= w.rows(u).value
  {
  }

  lemma StillForwarded(sent: seq<Frame>, lastSeq: int, log: seq<Frame>, n: nat, since: int, here: bool, later: bool)
    requires Forwarded(sent, lastSeq, log, n, since, here) && (later ==> here)
    ensures Forwarded(sent, lastSeq, log, n, since, later)
  {
  }

  lemma NothingForwarded(log: seq<Frame>, since: int, here: bool)
    ensures Forwarded([], since, log, 0, since, here)
  {
    assert log[..0] == [];
  }

  /**
   * `createRunReplayStream`. Whatever fails and whenever the client leaves, what was sent is a
   * start of the rows after `since`; a stream that is closed in the client's presence has sent
   * them all, because the rows are read once more after the run is seen to be over. The client of
   * a run that was over already is told so last, and one whose rows cannot be read that it failed.
   */
  method Replay<P>(
    since: nat, activeAtStart: bool, log: seq<Frame>, w: World, ghost leaves: nat, ghost json: string -> Option<P>
  ) returns (sent: seq<Frame>, finish: Finish)
    requires IsLog(log, json) && Orderly(w, log, leaves)
    requires WellFormed(REPLAY_FAILED, json) && WellFormed(ALREADY_OVER, json)
    ensures GoodReplay(sent, log, since, json)
    ensures finish == Closed && EndsSaved(w, log, activeAtStart) ==> Saved(sent) == After(log, since)
    ensures finish == Closed && !activeAtStart ==> |sent| > 0 && sent[|sent| - 1] == ALREADY_OVER
    ensures finish == ClosedOnFailure ==> sent == [REPLAY_FAILED]
  {
    hide After, Rising, LastId, WellFormed, Saved, IsLog, Orderly, GoodReplay, Forwarded;
    NothingForwarded(log, since, w.connected(1));
    if w.rows(0).None? {
      SentIsGood([], since, log, 0, since, w.connected(1), REPLAY_FAILED, json);
      sent := WithNotice([], REPLAY_FAILED, w.connected(1));
      return sent, if w.connected(1) then ClosedOnFailure else ClientLeft;
    }
    OrderlyNow(w, log, leaves, 0, 1);
    ghost var n, query: nat := w.rows(0).value, 0;
    var lastSeq: int, now: nat;
    sent, lastSeq, now := Poll(log, w.rows(0).value, 0, since, [], since, w, 1, leaves, json);
    SentIsGood(sent, lastSeq, log, n, since, w.connected(now), ALREADY_OVER, json);
    if !activeAtStart {
      sent := WithNotice(sent, ALREADY_OVER, w.connected(now));
      return sent, if w.connected(now) then Closed else ClientLeft;
    }
    while w.connected(now)
      invariant query < now && w.rows(query) == Some(n)
      invariant Forwarded(sent, lastSeq, log, n, since, w.connected(now))
      decreases if now < leaves then leaves - now else 0
    {
      SentIsGood(sent, lastSeq, log, n, since, w.connected(now), ALREADY_OVER, json);
      OrderlyNow(w, log, leaves, now, now + 1);
      OrderlyNow(w, log, leaves, query, now);
      if w.rows(now).None? {
        return sent, Errored;
      }
      StillForwarded(sent, lastSeq, log, n, since, w.connected(now), w.connected(now + 1));
      query := now;
      sent, lastSeq, now := Poll(log, w.rows(now).value, n, since, sent, lastSeq, w, now + 1, leaves, json);
      n := w.rows(query).value;
      SentIsGood(sent, lastSeq, log, n, since, w.connected(now), ALREADY_OVER, json);
      if !w.connected(now) {
        break;
      }
      var active := w.active(now);
      if active.None? {
        return sent, Errored;
      }
      now := now + 1;
      OrderlyNow(w, log, leaves, now - 1, now);
      StillForwarded(sent, lastSeq, log, n, since, w.connected(now - 1), w.connected(now));
      SentIsGood(sent, lastSeq, log, n, since, w.connected(now), ALREADY_OVER, json);
      if !active.value {
        if w.connected(now) {
          OrderlyNow(w, log, leaves, query, now);
          OrderlyNow(w, log, leaves, now, now + 1);
          if w.rows(now).None? {
            return sent, Errored;
          }
          StillForwarded(sent, lastSeq, log, n, since, w.connected(now), w.connected(now + 1));
          query := now;
          sent, lastSeq, now := Poll(log, w.rows(now).value, n, since, sent, lastSeq, w, now + 1, leaves, json);
          n := w.rows(query).value;
        }
        break;
      }
    }
    SentIsGood(sent, lastSeq, log, n, since, w.connected(now), ALREADY_OVER, json);
    return sent, if w.connected(now) then Closed else ClientLeft;
  }

  /** Whatever part of a replay arrives is what the consumer's resume protocol counts on. */
  lemma ReplayIsDelivered<P>(c: Connection, sent: seq<Frame>, log: seq<Frame>, since: int, json: string -> Option<P>)
    requires GoodReplay(sent, log, since, json) && Received(c) <= EncodeAll(sent)
    ensures Delivers(c, log, since, json)
    ensures Received(c) == EncodeAll(sent) && Saved(sent) == After(log, since) ==> DeliversAll(c, log, since, json)
  {
    hide AllWellFormed, Saved, After, Received, EncodeAll;
    assert Carries(c, sent, log, since, json);
    assert Received(c) == EncodeAll(sent) && Saved(sent) == After(log, since) ==> CarriesAll(c, sent, log, since, json);
  }
}
