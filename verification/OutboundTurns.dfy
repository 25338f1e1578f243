/**
 * Which stream a batch of the sending loop goes onto, after any history of the loop: the open
 * one while it has quota left, and a new one otherwise. A stream that failed, that would reach
 * its quota or that was idle is closed, and a closed stream is never written to again.
 */
module OutboundTurns {
  import opened OutboundStream

  ghost predicate AllPossible(events: seq<Event>) {
    forall e :: e in events ==> Possible(e)
  }

  /** The open stream can take `n` more packets without reaching the limit of its kind. */
  ghost predicate HasQuota(s: Sender, n: nat) {
    s.stream.Open? && s.stream.s.packets + n < LimitOf(s.stream.s.limited)
  }

  /** The streams after a turn, and whether the last one is still open; nothing is counted while none is. */
  ghost predicate Leaves(t: Sender, streams: seq<Stream>, open: bool) {
    t.Streams() == streams && t.stream.Open? == open && (!open ==> t.current == 0)
  }

  /** The loop compares with its own variables, which are those of the open stream. */
  lemma QuotaIsCurrent(s: Sender, n: nat)
    requires Inv(s)
    ensures HasQuota(s, n) <==> s.stream.Open? && s.current + n < s.maxPackets
    ensures s.stream.NoStream? ==> s.current == 0
  {
  }

  lemma GoesOn(s: Sender, sizes: seq<nat>, opening: Opening, writeOk: bool)
    requires s.stream.Open? && s.current + |sizes| < s.maxPackets
    ensures Leaves(Handle(s, Batch(sizes, true, opening, writeOk)), s.past + [Written(s.stream.s, sizes)], writeOk)
  {
    var c := s.(current := s.current + |sizes|);
    var sent := c.(stream := Open(Written(s.stream.s, sizes)));
    assert SendPacket(c, sizes, opening, writeOk) == (sent, writeOk);
    assert Handle(s, Batch(sizes, true, opening, writeOk)) == if writeOk then sent else CloseStream(sent);
  }

  /** Without quota the loop starts from no stream, whatever the stale limit is. */
  lemma StartsAnew(s: Sender, sizes: seq<nat>, opening: Opening, writeOk: bool)
    requires s.stream.Open? ==> s.current + |sizes| >= s.maxPackets
    requires s.stream.NoStream? ==> s.current == 0
    ensures var t := Handle(s, Batch(sizes, true, opening, writeOk));
            if opening.Fails? then Leaves(t, s.Streams(), false)
            else Leaves(t, s.Streams() + [Written(Stream(opening.limited, 0, 0), sizes)], writeOk)
  {
    var c := (if s.current + |sizes| >= s.maxPackets then CloseStream(s) else s).(current := |sizes|);
    assert c.stream.NoStream? && c.past == s.Streams();
    var (t, ok) := SendPacket(c, sizes, opening, writeOk);
    assert Handle(s, Batch(sizes, true, opening, writeOk)) == if ok then t else CloseStream(t);
  }

  /** A batch goes onto the open stream exactly while that has quota left, and else onto a new one. */
  lemma BatchGoes(events: seq<Event>, sizes: seq<nat>, opening: Opening, writeOk: bool)
    requires AllPossible(events) && 1 <= |sizes| <= 100
    ensures var s, t := Run(events), Run(events + [Batch(sizes, true, opening, writeOk)]);
            && (HasQuota(s, |sizes|) ==> Leaves(t, s.past + [More(s.stream.s, sizes)], writeOk))
            && (!HasQuota(s, |sizes|) && opening.Opens? ==>
                  Leaves(t, s.Streams() + [More(Stream(opening.limited, 0, 0), sizes)], writeOk))
            && (!HasQuota(s, |sizes|) && opening.Fails? ==> Leaves(t, s.Streams(), false))
  {
    var s := Run(events);
    QuotaHolds(events);
    QuotaIsCurrent(s, |sizes|);
    RunSnoc(events, Batch(sizes, true, opening, writeOk));
    if HasQuota(s, |sizes|) {
      GoesOn(s, sizes, opening, writeOk);
    } else {
      StartsAnew(s, sizes, opening, writeOk);
    }
  }

  /** The stream with the packets of the batch and their bytes added. */
  function More(st: Stream, sizes: seq<nat>): Stream {
    Stream(st.limited, st.packets + |sizes|, st.bytes + Total(sizes))
  }

  /** After a batch that could not be sent no stream is open and nothing is counted. */
  lemma FailureCloses(events: seq<Event>, sizes: seq<nat>, opening: Opening, writeOk: bool)
    requires AllPossible(events) && 1 <= |sizes| <= 100
    requires !writeOk || (opening.Fails? && !HasQuota(Run(events), |sizes|))
    ensures var t := Run(events + [Batch(sizes, true, opening, writeOk)]); t.stream.NoStream? && t.current == 0
  {
    BatchGoes(events, sizes, opening, writeOk);
  }

  /** An idle tick closes the stream if nothing waits, and nothing happens otherwise or while disconnected. */
  lemma IdleCloses(events: seq<Event>, sizes: seq<nat>, opening: Opening, writeOk: bool)
    ensures var s, t := Run(events), Run(events + [IdleTick(true)]);
            t.stream.NoStream? && t.current == 0 && t.Streams() == s.Streams()
    ensures Run(events + [IdleTick(false)]) == Run(events)
    ensures Run(events + [Batch(sizes, false, opening, writeOk)]) == Run(events)
  {
    RunSnoc(events, IdleTick(true));
    RunSnoc(events, IdleTick(false));
    RunSnoc(events, Batch(sizes, false, opening, writeOk));
  }

  lemma PastGrows(s: Sender, e: Event)
    ensures s.past <= Handle(s, e).past
  {
  }

  /** A closed stream stays as it is. */
  lemma {:induction false} PastIsFixed(events: seq<Event>, more: seq<Event>)
    ensures Run(events).past <= Run(events + more).past
  {
    if more == [] {
      assert events + more == events;
    } else {
      var n := |more| - 1;
      PastIsFixed(events, more[..n]);
      assert events + more == events + more[..n] + [more[n]];
      RunSnoc(events + more[..n], more[n]);
      PastGrows(Run(events + more[..n]), more[n]);
    }
  }

  /** A stream carries at most one batch whose write failed, and nothing after it. */
  lemma FailedIsLast(events: seq<Event>, sizes: seq<nat>, opening: Opening, more: seq<Event>)
    requires AllPossible(events) && 1 <= |sizes| <= 100
    ensures var failed := Batch(sizes, true, opening, false);
            Run(events + [failed]).Streams() <= Run(events + [failed] + more).Streams()
  {
    var failed := Batch(sizes, true, opening, false);
    FailureCloses(events, sizes, opening, false);
    PastIsFixed(events + [failed], more);
  }
}
