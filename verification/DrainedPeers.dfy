/**
 * No packet is stranded in the queues of a peer that was closed: when the peer leaves the
 * index both channels are closed and empty, and nobody can fill them again.
 */
module DrainedPeers {
  import opened ChannelSafety
  import opened Peers
  import opened TunnelIndex
  import opened TunnelSteps

  /** The object is the one the index has for its peer. */
  ghost predicate Listed(ix: Index, h: nat) {
    h < |ix.entries| && ix.entries[h].peerID in ix.peerOf && ix.peerOf[ix.entries[h].peerID] == h
  }

  ghost predicate Drained(c: VpnPeer) {
    !c.inbound.open && !c.outbound.open && c.inbound.queue == [] && c.outbound.queue == []
  }

  ghost predicate ClosesInOrder(s: Sys) {
    s.writer.Closing? && s.writer.h < |s.peers| ==>
      !s.peers[s.writer.h].inbound.open && (s.writer.both ==> !s.peers[s.writer.h].outbound.open)
  }

  ghost predicate Settled(s: Sys) {
    ClosesInOrder(s) && forall h :: 0 <= h < |s.peers| ==> Listed(s.index, h) || Drained(s.peers[h])
  }

  /** A step on one peer object that is listed, or that does not fill a closed one. */
  lemma OneObjectChanges(s: Sys, t: Sys, h: nat, c: VpnPeer)
    requires Settled(s) && h < |s.peers| && t.peers == s.peers[h := c] && t.index == s.index && t.writer == s.writer
    requires c.inbound.open == s.peers[h].inbound.open && c.outbound.open == s.peers[h].outbound.open
    requires Listed(s.index, h) || Drained(c)
    ensures Settled(t)
  {
  }

  lemma ReaderKeepsSettled(s: Sys, r: ReaderStep)
    requires Safe(s) && Settled(s) && ReaderCan(s, r)
    ensures Settled(ReaderNext(s, r))
  {
    if r.Forward? || r.ForwardCopy? {
      var h := s.reader.target.value;
      var p := if r.Forward? then s.reader.slots[r.i].value else s.reader.copy.value;
      assert Listed(s.index, h);
      OneObjectChanges(s, s.(peers := s.peers[h := Outgoing(s.peers[h], p)]), h, Outgoing(s.peers[h], p));
    }
  }

  lemma HandlerKeepsSettled(s: Sys, k: nat, x: HandlerStep)
    requires Safe(s) && Settled(s) && k < |s.handlers| && HandlerCan(s, k, x)
    ensures Settled(HandlerNext(s, k, x))
  {
    if x.Send? {
      assert AimOk(s, s.handlers[k].locked, s.handlers[k].target);
      var h, p := s.handlers[k].target.value, s.handlers[k].packet.value;
      assert Listed(s.index, h);
      OneObjectChanges(s, s.(peers := s.peers[h := Incoming(s.peers[h], p)]), h, Incoming(s.peers[h], p));
    }
  }

  lemma PeerKeepsSettled(s: Sys, h: nat, b: PeerStep)
    requires Settled(s) && Enabled(s, ByPeer(h, b))
    ensures Settled(Next(s, ByPeer(h, b)))
  {
    OneObjectChanges(s, Next(s, ByPeer(h, b)), h, PeerNext(s.peers[h], b));
  }

  lemma RefreshKeepsSettled(s: Sys, id: PeerId, ip: IPText, senders: nat)
    requires Safe(s) && Settled(s) && s.writer.Holding?
    ensures Settled(Refreshing(s, id, ip, senders))
  {
    var t := Refreshing(s, id, ip, senders);
    forall h | 0 <= h < |t.peers|
      ensures Listed(t.index, h) || Drained(t.peers[h])
    {
      if h < |s.peers| {
        assert Listed(s.index, h) || Drained(s.peers[h]);
      }
    }
  }

  /** The object that leaves the index was closed and has been emptied. */
  lemma ForgetKeepsSettled(s: Sys)
    requires Safe(s) && Settled(s) && WriterCan(s, Forget)
    ensures Settled(WriterNext(s, Forget))
  {
    var t := WriterNext(s, Forget);
    forall h | 0 <= h < |t.peers|
      ensures Listed(t.index, h) || Drained(t.peers[h])
    {
      assert Listed(s.index, h) || Drained(s.peers[h]);
    }
  }

  lemma CloseKeepsSettled(s: Sys, w: WriterStep)
    requires Safe(s) && Settled(s) && WriterCan(s, w)
    requires w.CloseInbound? || w.CloseOutbound? || w.DrainInbound? || w.DrainOutbound?
    ensures Settled(WriterNext(s, w))
  {
    var t := WriterNext(s, w);
    var g := if w.CloseInbound? then s.index.peerOf[w.id] else s.writer.h;
    assert Listed(s.index, g);
    forall h | 0 <= h < |t.peers|
      ensures Listed(t.index, h) || Drained(t.peers[h])
    {
      assert Listed(s.index, h) || Drained(s.peers[h]);
      assert h != g ==> t.peers[h] == s.peers[h];
    }
  }

  lemma StepKeepsSettled(s: Sys, e: Step)
    requires Safe(s) && Settled(s) && Enabled(s, e)
    ensures Settled(Next(s, e))
  {
    match e
    case Collect(p) =>
    case Accept(peer) =>
    case ByReader(r) => ReaderKeepsSettled(s, r);
    case ByHandler(k, x) => HandlerKeepsSettled(s, k, x);
    case ByPeer(h, b) => PeerKeepsSettled(s, h, b);
    case ByWriter(w) => WriterKeepsSettled(s, w);
  }

  lemma WriterKeepsSettled(s: Sys, w: WriterStep)
    requires Safe(s) && Settled(s) && WriterCan(s, w)
    ensures Settled(WriterNext(s, w))
  {
    if w.Refresh? {
      RefreshKeepsSettled(s, w.id, w.ip, w.senders);
    } else if w.Forget? {
      ForgetKeepsSettled(s);
    } else if w.CloseInbound? || w.CloseOutbound? || w.DrainInbound? || w.DrainOutbound? {
      CloseKeepsSettled(s, w);
    }
  }

  lemma {:induction false} RunIsSettled(run: seq<Sys>, steps: seq<Step>, i: nat)
    requires IsRun(run, steps) && i < |run|
    ensures Settled(run[i])
  {
    if i > 0 {
      RunIsSettled(run, steps, i - 1);
      RunIsSafe(run, steps, i - 1);
      StepKeepsSettled(run[i - 1], steps[i - 1]);
      assert run[i - 1 + 1] == Next(run[i - 1], steps[i - 1]);
    }
  }

  /** In every run a packet that waits in a queue waits for a peer that is still in the index. */
  lemma NothingIsStranded(run: seq<Sys>, steps: seq<Step>, i: nat, h: nat)
    requires IsRun(run, steps) && i < |run| && h < |run[i].peers|
    requires run[i].peers[h].inbound.queue != [] || run[i].peers[h].outbound.queue != []
    ensures exists id :: id in run[i].index.peerOf && run[i].index.peerOf[id] == h
  {
    RunIsSettled(run, steps, i);
    assert run[i].index.entries[h].peerID in run[i].index.peerOf;
  }
}
