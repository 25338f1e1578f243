/**
 * Where the packets are. Every packet object that exists is in exactly one place: the pool,
 * a slot or the broadcast copy of the TUN reader, a stream handler, a queue of one peer, a
 * sender's batch or an inbound batch. Every step keeps this except one: returning an inbound
 * batch, which keeps it exactly when the packets that do not parse come last.
 */
module PacketLedger {
  import opened InboundBatch
  import opened Peers
  import opened TunnelSteps

  // ----- Sums over a sequence of places

  ghost function Sum<T>(count: (T, Packet) -> nat, s: seq<T>, p: Packet): nat {
    if s == [] then 0 else Sum(count, s[..|s| - 1], p) + count(s[|s| - 1], p)
  }

  lemma {:induction false} SumUpdate<T>(count: (T, Packet) -> nat, s: seq<T>, i: nat, v: T, p: Packet)
    requires i < |s|
    ensures Sum(count, s[i := v], p) + count(s[i], p) == Sum(count, s, p) + count(v, p)
  {
    var n := |s| - 1;
    if i < n {
      SumUpdate(count, s[..n], i, v, p);
      assert s[i := v][..n] == s[..n][i := v];
    } else {
      assert s[i := v][..n] == s[..n];
    }
  }

  lemma {:induction false} SumEmpty<T>(count: (T, Packet) -> nat, s: seq<T>, p: Packet)
    requires forall i :: 0 <= i < |s| ==> count(s[i], p) == 0
    ensures Sum(count, s, p) == 0
  {
    if s != [] {
      SumEmpty(count, s[..|s| - 1], p);
    }
  }

  lemma SumAppend<T>(count: (T, Packet) -> nat, s: seq<T>, v: T, p: Packet)
    ensures Sum(count, s + [v], p) == Sum(count, s, p) + count(v, p)
  {
    assert (s + [v])[..|s|] == s;
  }

  lemma {:induction false} SumHasOne<T>(count: (T, Packet) -> nat, s: seq<T>, i: nat, p: Packet)
    requires i < |s|
    ensures count(s[i], p) <= Sum(count, s, p)
  {
    var n := |s| - 1;
    if i < n {
      SumHasOne(count, s[..n], i, p);
    }
  }

  /** Two different places count separately. */
  lemma {:induction false} SumHasTwo<T>(count: (T, Packet) -> nat, s: seq<T>, i: nat, j: nat, p: Packet)
    requires i < j < |s|
    ensures count(s[i], p) + count(s[j], p) <= Sum(count, s, p)
  {
    var n := |s| - 1;
    if j < n {
      SumHasTwo(count, s[..n], i, j, p);
    } else {
      SumHasOne(count, s[..n], i, p);
    }
  }

  // ----- How often a packet is referenced

  ghost function InSlot(o: Option<Packet>, p: Packet): nat {
    if o == Some(p) then 1 else 0
  }

  ghost function InQueue(q: seq<Packet>, p: Packet): nat {
    multiset(q)[p]
  }

  ghost function InPeer(c: VpnPeer, p: Packet): nat {
    InQueue(c.inbound.queue, p) + InQueue(c.outbound.queue, p) + Sum(InQueue, c.senders, p) + InQueue(c.inBatch, p)
  }

  ghost function InHandler(x: Handler, p: Packet): nat {
    InSlot(x.packet, p)
  }

  ghost function InReader(r: Reader, p: Packet): nat {
    Sum(InSlot, r.slots, p) + InSlot(r.copy, p)
  }

  /** The number of references to `p` in the whole system. */
  ghost function Places(s: Sys, p: Packet): nat {
    s.pool[p] + InReader(s.reader, p) + Sum(InHandler, s.handlers, p) + Sum(InPeer, s.peers, p)
  }

  ghost function Exists(s: Sys, p: Packet): nat {
    if p in s.live then 1 else 0
  }

  /** Each packet that exists is in exactly one place, and no other is anywhere. */
  ghost predicate Conserved(s: Sys) {
    forall p :: Places(s, p) == Exists(s, p)
  }

  // ----- Elementary changes

  lemma QueueGrows(q: seq<Packet>, x: Packet, p: Packet)
    ensures InQueue(q + [x], p) == InQueue(q, p) + InQueue([x], p) && InQueue([x], p) == InSlot(Some(x), p)
  {
  }

  lemma QueueSplits(q: seq<Packet>, p: Packet)
    requires q != []
    ensures InQueue(q, p) == InSlot(Some(q[0]), p) + InQueue(q[1..], p)
  {
    assert q == [q[0]] + q[1..];
  }

  lemma Put(s: Sys, ps: seq<Packet>, p: Packet)
    ensures Places(Returning(s, ps), p) == Places(s, p) + InQueue(ps, p)
  {
  }

  /** A packet that is taken is missing from the ledger until it is put somewhere. */
  lemma Taking(s: Sys, x: Packet, p: Packet)
    requires Conserved(s) && CanGet(s, x)
    ensures Places(Took(s, x), p) + InSlot(Some(x), p) == Exists(Took(s, x), p)
  {
    assert Places(s, p) == Exists(s, p);
    assert Places(s, x) == Exists(s, x);
  }

  lemma SlotChanges(s: Sys, i: nat, o: Option<Packet>, p: Packet)
    requires i < |s.reader.slots|
    ensures Places(WithSlot(s, i, o), p) + InSlot(s.reader.slots[i], p) == Places(s, p) + InSlot(o, p)
  {
    SumUpdate(InSlot, s.reader.slots, i, o, p);
  }

  lemma PeerChanges(s: Sys, h: nat, c: VpnPeer, p: Packet)
    requires h < |s.peers|
    ensures Places(WithPeer(s, h, c), p) + InPeer(s.peers[h], p) == Places(s, p) + InPeer(c, p)
  {
    SumUpdate(InPeer, s.peers, h, c, p);
  }

  lemma HandlerChanges(s: Sys, k: nat, x: Handler, p: Packet)
    requires k < |s.handlers|
    ensures Places(WithHandler(s, k, x), p) + InHandler(s.handlers[k], p) == Places(s, p) + InHandler(x, p)
  {
    SumUpdate(InHandler, s.handlers, k, x, p);
  }

  // ----- Sends: a packet moves, stays, or goes back to the pool

  lemma OutgoingAdds(s: Sys, h: nat, x: Packet, p: Packet)
    requires h < |s.peers|
    ensures Places(WithPeer(s, h, Outgoing(s.peers[h], x)), p) == Places(s, p) + InSlot(Some(x), p)
  {
    QueueGrows(s.peers[h].outbound.queue, x, p);
    PeerChanges(s, h, Outgoing(s.peers[h], x), p);
  }

  lemma IncomingAdds(s: Sys, h: nat, x: Packet, p: Packet)
    requires h < |s.peers|
    ensures Places(WithPeer(s, h, Incoming(s.peers[h], x)), p) == Places(s, p) + InSlot(Some(x), p)
  {
    QueueGrows(s.peers[h].inbound.queue, x, p);
    PeerChanges(s, h, Incoming(s.peers[h], x), p);
  }

  lemma PutAdds(s: Sys, x: Packet, p: Packet)
    ensures Places(Returning(s, [x]), p) == Places(s, p) + InSlot(Some(x), p)
  {
    QueueGrows([], x, p);
    Put(s, [x], p);
  }

  lemma ForwardedKeeps(s: Sys, h: nat, i: nat, x: Packet, p: Packet)
    requires h < |s.peers| && i < |s.reader.slots| && s.reader.slots[i] == Some(x)
    ensures Places(Forwarded(s, h, i, x), p) == Places(s, p) && Forwarded(s, h, i, x).live == s.live
  {
    SlotChanges(s, i, None, p);
    OutgoingAdds(WithSlot(s, i, None), h, x, p);
  }

  lemma CopyTaken(s: Sys, x: Packet, p: Packet)
    requires s.reader.copy == Some(x)
    ensures Places(s.(reader := s.reader.(copy := None)), p) + InSlot(Some(x), p) == Places(s, p)
  {
  }

  lemma CopyForwardedKeeps(s: Sys, h: nat, x: Packet, p: Packet)
    requires h < |s.peers| && s.reader.copy == Some(x)
    ensures Places(CopyForwarded(s, h, x), p) == Places(s, p) && CopyForwarded(s, h, x).live == s.live
  {
    var t := s.(reader := s.reader.(copy := None));
    CopyTaken(s, x, p);
    PutAdds(t, x, p);
    OutgoingAdds(t, h, x, p);
  }

  lemma DeliveredKeeps(s: Sys, k: nat, h: nat, x: Packet, p: Packet)
    requires k < |s.handlers| && h < |s.peers| && s.handlers[k].packet == Some(x)
    ensures Places(Delivered(s, k, h, x), p) == Places(s, p)
  {
    var t := WithHandler(s, k, s.handlers[k].(packet := None));
    HandlerChanges(s, k, s.handlers[k].(packet := None), p);
    PutAdds(t, x, p);
    IncomingAdds(t, h, x, p);
  }

  lemma SlotFilled(s: Sys, i: nat, x: Packet, p: Packet)
    requires Conserved(s) && CanGet(s, x) && i < |s.reader.slots| && s.reader.slots[i] == None
    ensures Places(WithSlot(Took(s, x), i, Some(x)), p) == Exists(Took(s, x), p)
  {
    Taking(s, x, p);
    SlotChanges(Took(s, x), i, Some(x), p);
  }

  lemma SlotEmptied(s: Sys, i: nat, x: Packet, p: Packet)
    requires i < |s.reader.slots| && s.reader.slots[i] == Some(x)
    ensures Places(WithSlot(Returning(s, [x]), i, None), p) == Places(s, p)
  {
    PutAdds(s, x, p);
    SlotChanges(Returning(s, [x]), i, None, p);
  }

  lemma HandlerFilled(s: Sys, k: nat, x: Packet, p: Packet)
    requires Conserved(s) && CanGet(s, x) && k < |s.handlers| && s.handlers[k].packet == None
    ensures Places(WithHandler(Took(s, x), k, s.handlers[k].(packet := Some(x))), p) == Exists(Took(s, x), p)
  {
    Taking(s, x, p);
    HandlerChanges(Took(s, x), k, s.handlers[k].(packet := Some(x)), p);
  }

  lemma HandlerEmptied(s: Sys, k: nat, x: Packet, p: Packet)
    requires k < |s.handlers| && s.handlers[k].packet == Some(x)
    ensures Places(WithHandler(Returning(s, [x]), k, s.handlers[k].(packet := None)), p) == Places(s, p)
  {
    PutAdds(s, x, p);
    HandlerChanges(Returning(s, [x]), k, s.handlers[k].(packet := None), p);
  }

  // ----- Steps

  lemma CopyFilled(s: Sys, x: Packet, p: Packet)
    requires Conserved(s) && CanGet(s, x) && s.reader.copy == None
    ensures Places(Took(s, x).(reader := s.reader.(copy := Some(x))), p) == Exists(Took(s, x), p)
  {
    Taking(s, x, p);
  }

  /** Steps of the reader that touch packets, and those that only lock, find or unlock. */
  lemma ReaderKeeps(s: Sys, r: ReaderStep, p: Packet)
    requires Conserved(s) && ReaderCan(s, r)
    ensures Places(ReaderNext(s, r), p) == Exists(ReaderNext(s, r), p)
  {
    if r.Fill? {
      SlotFilled(s, r.i, r.packet, p);
    } else if r.Copy? {
      CopyFilled(s, r.packet, p);
    } else {
      assert Places(s, p) == Exists(s, p);
      ReaderMoves(s, r, p);
    }
  }

  lemma ReaderMoves(s: Sys, r: ReaderStep, p: Packet)
    requires ReaderCan(s, r) && !r.Fill? && !r.Copy?
    ensures Places(ReaderNext(s, r), p) == Places(s, p) && ReaderNext(s, r).live == s.live
  {
    var me := s.reader;
    if r.Reject? {
      SlotEmptied(s, r.i, me.slots[r.i].value, p);
    } else if r.Forward? {
      ForwardedKeeps(s, me.target.value, r.i, me.slots[r.i].value, p);
    } else if r.ForwardCopy? {
      CopyForwardedKeeps(s, me.target.value, me.copy.value, p);
    }
  }

  lemma HandlerKeeps(s: Sys, k: nat, x: HandlerStep, p: Packet)
    requires Conserved(s) && k < |s.handlers| && HandlerCan(s, k, x)
    ensures Places(HandlerNext(s, k, x), p) == Exists(HandlerNext(s, k, x), p)
  {
    var me := s.handlers[k];
    assert Places(s, p) == Exists(s, p);
    match x
    case Get(y) => HandlerFilled(s, k, y, p);
    case Put => HandlerEmptied(s, k, me.packet.value, p);
    case LockRead => HandlerChanges(s, k, me.(locked := true), p);
    case FindPeer => HandlerChanges(s, k, me.(target := Some(s.index.peerOf[me.peer])), p);
    case Send => DeliveredKeeps(s, k, me.target.value, me.packet.value, p);
    case UnlockRead => HandlerChanges(s, k, me.(locked := false, target := None), p);
  }

  /** The packets an inbound batch would return a second time. */
  ghost function Doubled(c: VpnPeer, b: PeerStep): seq<Packet> {
    if b.InboundDone? then LeftBehind(b.parses, c.inBatch) else []
  }

  /** What leaves a peer object is what reaches the pool, but for the doubled packets. */
  lemma PeerBalance(c: VpnPeer, b: PeerStep, p: Packet)
    requires PeerCan(c, b)
    ensures InPeer(PeerNext(c, b), p) + InQueue(PeerPuts(c, b), p) == InPeer(c, p) + InQueue(Doubled(c, b), p)
  {
    match b
    case SenderTake(j) =>
      var x := c.outbound.queue[0];
      QueueSplits(c.outbound.queue, p);
      QueueGrows(c.senders[j], x, p);
      SumUpdate(InQueue, c.senders, j, c.senders[j] + [x], p);
    case SenderDone(j) => SumUpdate(InQueue, c.senders, j, [], p);
    case InboundTake =>
      QueueSplits(c.inbound.queue, p);
      QueueGrows(c.inBatch, c.inbound.queue[0], p);
    case InboundDone(parses) => ReturnedCounts(parses, c.inBatch);
  }

  /** A background step adds exactly the doubled packets to the ledger. */
  lemma PeerStepAdds(s: Sys, h: nat, b: PeerStep, p: Packet)
    requires h < |s.peers| && PeerCan(s.peers[h], b)
    ensures Places(Paid(s, h, PeerNext(s.peers[h], b), PeerPuts(s.peers[h], b)), p)
         == Places(s, p) + InQueue(Doubled(s.peers[h], b), p)
  {
    PeerBalance(s.peers[h], b, p);
    PaidAdds(s, h, PeerNext(s.peers[h], b), PeerPuts(s.peers[h], b), p);
  }

  lemma PaidAdds(s: Sys, h: nat, c: VpnPeer, puts: seq<Packet>, p: Packet)
    requires h < |s.peers|
    ensures Places(Paid(s, h, c, puts), p) + InPeer(s.peers[h], p) == Places(s, p) + InPeer(c, p) + InQueue(puts, p)
  {
    Put(s, puts, p);
    PeerChanges(Returning(s, puts), h, c, p);
  }

  /** The drain takes from the queues what the senders and the inbound handler left. */
  lemma DrainKeeps(s: Sys, w: WriterStep, p: Packet)
    requires WriterCan(s, w) && (w.DrainInbound? || w.DrainOutbound?)
    ensures Places(WriterNext(s, w), p) == Places(s, p)
  {
    var c := s.peers[s.writer.h];
    var q := if w.DrainInbound? then c.inbound.queue else c.outbound.queue;
    var after := if w.DrainInbound? then c.(inbound := Dequeued(c.inbound)) else c.(outbound := Dequeued(c.outbound));
    QueueSplits(q, p);
    PutAdds(s, q[0], p);
    PeerChanges(Returning(s, [q[0]]), s.writer.h, after, p);
  }

  lemma RefreshKeeps(s: Sys, id: PeerId, ip: IPText, senders: nat, p: Packet)
    ensures Places(Refreshing(s, id, ip, senders), p) == Places(s, p)
  {
    SumEmpty(InQueue, NewPeer(senders).senders, p);
    assert InPeer(NewPeer(senders), p) == 0;
    SumAppend(InPeer, s.peers, NewPeer(senders), p);
  }

  lemma CloseKeeps(s: Sys, id: PeerId, h: nat, p: Packet)
    requires h < |s.peers|
    ensures Places(InboundClosed(s, id, h), p) == Places(s, p) && Places(OutboundClosed(s, id, h), p) == Places(s, p)
  {
    var c := s.peers[h];
    PeerChanges(s, h, c.(inbound := c.inbound.(open := false)), p);
    PeerChanges(s, h, c.(outbound := c.outbound.(open := false)), p);
  }

  lemma WriterKeeps(s: Sys, w: WriterStep, p: Packet)
    requires WriterCan(s, w)
    ensures Places(WriterNext(s, w), p) == Places(s, p) && WriterNext(s, w).live == s.live
  {
    if w.Refresh? {
      RefreshKeeps(s, w.id, w.ip, w.senders, p);
    } else if w.CloseInbound? {
      CloseKeeps(s, w.id, s.index.peerOf[w.id], p);
    } else if w.CloseOutbound? {
      CloseKeeps(s, s.writer.id, s.writer.h, p);
    } else if w.DrainInbound? || w.DrainOutbound? {
      DrainKeeps(s, w, p);
    }
  }

  /** The condition on a step: an inbound batch fails to parse only at its end. */
  ghost predicate Orderly(s: Sys, e: Step)
    requires Enabled(s, e)
  {
    e.ByPeer? && e.b.InboundDone? ==> FailuresAreSuffix(e.b.parses, s.peers[e.h].inBatch)
  }

  lemma DoublesUnlessOrderly(s: Sys, h: nat, b: PeerStep)
    requires Enabled(s, ByPeer(h, b))
    ensures Doubled(s.peers[h], b) == [] <==> Orderly(s, ByPeer(h, b))
  {
    if b.InboundDone? {
      LeftBehindIff(b.parses, s.peers[h].inBatch);
    }
  }

  ghost function Extra(s: Sys, e: Step, p: Packet): nat
    requires Enabled(s, e)
  {
    if e.ByPeer? then InQueue(Doubled(s.peers[e.h], e.b), p) else 0
  }

  /** What a step adds to the references of a packet beyond its existence. */
  lemma StepAdds(s: Sys, e: Step, p: Packet)
    requires Conserved(s) && Enabled(s, e)
    ensures Places(Next(s, e), p) == Exists(Next(s, e), p) + Extra(s, e, p)
  {
    assert Places(s, p) == Exists(s, p);
    match e
    case Collect(x) => assert Places(s, x) == Exists(s, x);
    case Accept(peer) => SumAppend(InHandler, s.handlers, Handler(peer, false, None, None), p);
    case ByReader(r) => ReaderKeeps(s, r, p);
    case ByHandler(k, x) => HandlerKeeps(s, k, x, p);
    case ByPeer(h, b) => PeerStepAdds(s, h, b, p);
    case ByWriter(w) => WriterKeeps(s, w, p);
  }

  /** A step from a conserved state conserves the packets if and only if it is orderly. */
  lemma StepConservesIff(s: Sys, e: Step)
    requires Conserved(s) && Enabled(s, e)
    ensures Conserved(Next(s, e)) <==> Orderly(s, e)
  {
    forall p
      ensures Places(Next(s, e), p) == Exists(Next(s, e), p) + Extra(s, e, p)
    {
      StepAdds(s, e, p);
    }
    if e.ByPeer? {
      DoublesUnlessOrderly(s, e.h, e.b);
      var extra := Doubled(s.peers[e.h], e.b);
      if extra != [] {
        assert extra[0] in multiset(extra);
        assert Places(Next(s, e), extra[0]) != Exists(Next(s, e), extra[0]);
      }
    }
  }

  // ----- Runs

  lemma InitConserved(s: Sys)
    requires Init(s)
    ensures Conserved(s)
  {
    forall p
      ensures Places(s, p) == Exists(s, p)
    {
      SumEmpty(InSlot, s.reader.slots, p);
    }
  }

  /** Along every run whose inbound batches were orderly so far, packets are conserved. */
  lemma {:induction false} RunConserves(run: seq<Sys>, steps: seq<Step>, i: nat)
    requires IsRun(run, steps) && i < |run|
    requires forall j :: 0 <= j < i ==> Orderly(run[j], steps[j])
    ensures Conserved(run[i])
  {
    if i == 0 {
      InitConserved(run[0]);
    } else {
      RunConserves(run, steps, i - 1);
      StepConservesIff(run[i - 1], steps[i - 1]);
      assert run[i - 1 + 1] == Next(run[i - 1], steps[i - 1]);
    }
  }

  /** Packets are conserved in all of a run if and only if all of its inbound batches were orderly. */
  lemma RunConservesIff(run: seq<Sys>, steps: seq<Step>)
    requires IsRun(run, steps)
    ensures (forall i :: 0 <= i < |run| ==> Conserved(run[i]))
       <==> (forall j :: 0 <= j < |steps| ==> Orderly(run[j], steps[j]))
  {
    if forall i :: 0 <= i < |run| ==> Conserved(run[i]) {
      forall j | 0 <= j < |steps|
        ensures Orderly(run[j], steps[j])
      {
        StepConservesIff(run[j], steps[j]);
        assert Conserved(run[j + 1]);
      }
    }
    if forall j :: 0 <= j < |steps| ==> Orderly(run[j], steps[j]) {
      forall i | 0 <= i < |run|
        ensures Conserved(run[i])
      {
        RunConserves(run, steps, i);
      }
    }
  }

  /** The first disorderly batch of a run leaves some packet twice in the pool. */
  lemma FirstDisorderBreaks(run: seq<Sys>, steps: seq<Step>, i: nat) returns (p: Packet)
    requires IsRun(run, steps) && i < |steps|
    requires forall j :: 0 <= j < i ==> Orderly(run[j], steps[j])
    requires !Orderly(run[i], steps[i])
    ensures run[i + 1].pool[p] >= 2
  {
    var s, h, b := run[i], steps[i].h, steps[i].b;
    var batch := s.peers[h].inBatch;
    DoublesUnlessOrderly(s, h, b);
    p := Doubled(s.peers[h], b)[0];
    assert p in multiset(LeftBehind(b.parses, batch));
    LeftBehindIsHeld(b.parses, batch, p);
    ReturnedCounts(b.parses, batch);
    assert run[i + 1] == Next(s, ByPeer(h, b));
  }

  lemma LeftBehindIsHeld(parses: Packet -> bool, batch: seq<Packet>, p: Packet)
    requires p in LeftBehind(parses, batch)
    ensures p in multiset(batch)
  {
    var k := |Filter(parses, batch)|;
    FilterSplits(parses, batch[k..]);
    assert p in multiset(Filter(parses, batch[k..]));
    assert p in multiset(batch[k..]);
    assert batch == batch[..k] + batch[k..];
  }

  /** What conservation means for two peer objects: they never hold the same packet, nor does the pool. */
  lemma PeersShareNothing(s: Sys, h: nat, g: nat, p: Packet)
    requires Conserved(s) && h < g < |s.peers| && InPeer(s.peers[h], p) > 0
    ensures InPeer(s.peers[h], p) == 1 && InPeer(s.peers[g], p) == 0 && p !in s.pool && p in s.live
  {
    SumHasTwo(InPeer, s.peers, h, g, p);
    assert Places(s, p) == Exists(s, p);
  }
}
