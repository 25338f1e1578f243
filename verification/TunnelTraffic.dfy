/**
 * Packets really move, and in order. In every run of the tunnel what was ever sent on a channel
 * is what was taken from it, in the same order, followed by what is waiting; queues and batches
 * stay bounded. And a packet from the TUN device or from a stream can reach the queue it is
 * meant for, a peer can be added and closed, and closing it returns its packets to the pool.
 */
module TunnelTraffic {
  import opened Bytes
  import opened InboundBatch
  import opened Peers
  import opened TunnelIndex
  import opened TunnelSteps

  // ----- What goes into a channel and out of it

  /** The two channels of a peer object. */
  datatype Side = Inbound | Outbound

  function ChanOf(s: Sys, h: nat, d: Side): Chan {
    if h >= |s.peers| then Chan(true, []) else if d.Inbound? then s.peers[h].inbound else s.peers[h].outbound
  }

  function Queue(s: Sys, h: nat, d: Side): seq<Packet> {
    ChanOf(s, h, d).queue
  }

  predicate HasRoom(s: Sys, h: nat, d: Side) {
    h < |s.peers| && ChanOf(s, h, d).open && |Queue(s, h, d)| < 2000
  }

  /** The packet that the step offers to the channel, if any. */
  function Offered(s: Sys, e: Step, h: nat, d: Side): Option<Packet> {
    match e
    case ByReader(Forward(i)) =>
      if d.Outbound? && s.reader.target == Some(h) && i < |s.reader.slots| then s.reader.slots[i] else None
    case ByReader(ForwardCopy) =>
      if d.Outbound? && s.reader.target == Some(h) then s.reader.copy else None
    case ByHandler(k, Send) =>
      if d.Inbound? && k < |s.handlers| && s.handlers[k].target == Some(h) then s.handlers[k].packet else None
    case _ => None
  }

  function Sent(s: Sys, e: Step, h: nat, d: Side): seq<Packet> {
    var o := Offered(s, e, h, d);
    if o.Some? && HasRoom(s, h, d) then [o.value] else []
  }

  /** A background goroutine of the peer, or the drain of a closing one, receives from the channel. */
  predicate Takes(s: Sys, e: Step, h: nat, d: Side) {
    match e
    case ByPeer(k, SenderTake(_)) => k == h && d.Outbound?
    case ByPeer(k, InboundTake) => k == h && d.Inbound?
    case ByWriter(DrainOutbound) => s.writer.Closing? && s.writer.h == h && d.Outbound?
    case ByWriter(DrainInbound) => s.writer.Closing? && s.writer.h == h && d.Inbound?
    case _ => false
  }

  function Taken(s: Sys, e: Step, h: nat, d: Side): seq<Packet> {
    if Takes(s, e, h, d) && Queue(s, h, d) != [] then [Queue(s, h, d)[0]] else []
  }

  /** One peer object becomes `c`: the queues of the others stay. */
  lemma OnlyOne(s: Sys, t: Sys, k: nat, c: VpnPeer, h: nat, d: Side)
    requires k < |s.peers| && t.peers == s.peers[k := c]
    ensures h != k ==> Queue(t, h, d) == Queue(s, h, d)
    ensures h == k ==> Queue(t, h, d) == if d.Inbound? then c.inbound.queue else c.outbound.queue
  {
  }

  lemma ForwardMoves(s: Sys, i: nat, h: nat, d: Side)
    requires ReaderCan(s, Forward(i))
    ensures Queue(s, h, d) + Sent(s, ByReader(Forward(i)), h, d) == Queue(ReaderNext(s, Forward(i)), h, d)
  {
    var k, p := s.reader.target.value, s.reader.slots[i].value;
    if HasRoom(s, k, Outbound) {
      OnlyOne(s, ReaderNext(s, Forward(i)), k, Outgoing(s.peers[k], p), h, d);
    } else {
      assert ReaderNext(s, Forward(i)).peers == s.peers;
    }
  }

  lemma CopyMoves(s: Sys, h: nat, d: Side)
    requires ReaderCan(s, ForwardCopy)
    ensures Queue(s, h, d) + Sent(s, ByReader(ForwardCopy), h, d) == Queue(ReaderNext(s, ForwardCopy), h, d)
  {
    var k, p := s.reader.target.value, s.reader.copy.value;
    if HasRoom(s, k, Outbound) {
      OnlyOne(s, ReaderNext(s, ForwardCopy), k, Outgoing(s.peers[k], p), h, d);
    } else {
      assert ReaderNext(s, ForwardCopy).peers == s.peers;
    }
  }

  lemma ReaderMoves(s: Sys, r: ReaderStep, h: nat, d: Side)
    requires ReaderCan(s, r)
    ensures Queue(s, h, d) + Sent(s, ByReader(r), h, d) == Queue(ReaderNext(s, r), h, d)
  {
    match r
    case Forward(i) => ForwardMoves(s, i, h, d);
    case ForwardCopy => CopyMoves(s, h, d);
    case _ => assert ReaderNext(s, r).peers == s.peers;
  }

  lemma HandlerMoves(s: Sys, k: nat, x: HandlerStep, h: nat, d: Side)
    requires k < |s.handlers| && HandlerCan(s, k, x)
    ensures Queue(s, h, d) + Sent(s, ByHandler(k, x), h, d) == Queue(HandlerNext(s, k, x), h, d)
  {
    if x.Send? && HasRoom(s, s.handlers[k].target.value, Inbound) {
      var g, p := s.handlers[k].target.value, s.handlers[k].packet.value;
      OnlyOne(s, HandlerNext(s, k, x), g, Incoming(s.peers[g], p), h, d);
    } else {
      assert HandlerNext(s, k, x).peers == s.peers;
    }
  }

  lemma PeerMoves(s: Sys, k: nat, b: PeerStep, h: nat, d: Side)
    requires k < |s.peers| && PeerCan(s.peers[k], b)
    ensures var t := Paid(s, k, PeerNext(s.peers[k], b), PeerPuts(s.peers[k], b));
            Queue(s, h, d) == Taken(s, ByPeer(k, b), h, d) + Queue(t, h, d)
  {
    var c := PeerNext(s.peers[k], b);
    OnlyOne(s, Paid(s, k, c, PeerPuts(s.peers[k], b)), k, c, h, d);
  }

  lemma DrainMoves(s: Sys, w: WriterStep, h: nat, d: Side)
    requires WriterCan(s, w) && (w.DrainInbound? || w.DrainOutbound?)
    ensures Queue(s, h, d) == Taken(s, ByWriter(w), h, d) + Queue(WriterNext(s, w), h, d)
  {
    var k := s.writer.h;
    OnlyOne(s, WriterNext(s, w), k, WriterNext(s, w).peers[k], h, d);
  }

  lemma WriterMoves(s: Sys, w: WriterStep, h: nat, d: Side)
    requires WriterCan(s, w)
    ensures Queue(s, h, d) == Taken(s, ByWriter(w), h, d) + Queue(WriterNext(s, w), h, d)
  {
    if w.DrainInbound? || w.DrainOutbound? {
      DrainMoves(s, w, h, d);
    } else {
      assert Queue(WriterNext(s, w), h, d) == Queue(s, h, d);
    }
  }

  /** One step: the queue loses what is taken at its front and gains what is sent at its end. */
  lemma StepMoves(s: Sys, e: Step, h: nat, d: Side)
    requires Enabled(s, e)
    ensures Queue(s, h, d) + Sent(s, e, h, d) == Taken(s, e, h, d) + Queue(Next(s, e), h, d)
  {
    match e
    case ByReader(r) => ReaderMoves(s, r, h, d);
    case ByHandler(k, x) => HandlerMoves(s, k, x, h, d);
    case ByPeer(k, b) => PeerMoves(s, k, b, h, d);
    case ByWriter(w) => WriterMoves(s, w, h, d);
    case _ =>
  }

  // ----- Whole runs

  function SentUpTo(run: seq<Sys>, steps: seq<Step>, i: nat, h: nat, d: Side): seq<Packet>
    requires i <= |steps| < |run|
  {
    if i == 0 then [] else SentUpTo(run, steps, i - 1, h, d) + Sent(run[i - 1], steps[i - 1], h, d)
  }

  function TakenUpTo(run: seq<Sys>, steps: seq<Step>, i: nat, h: nat, d: Side): seq<Packet>
    requires i <= |steps| < |run|
  {
    if i == 0 then [] else TakenUpTo(run, steps, i - 1, h, d) + Taken(run[i - 1], steps[i - 1], h, d)
  }

  lemma MovesAt(run: seq<Sys>, steps: seq<Step>, k: nat, h: nat, d: Side)
    requires IsRun(run, steps) && k < |steps|
    ensures Queue(run[k], h, d) + Sent(run[k], steps[k], h, d)
         == Taken(run[k], steps[k], h, d) + Queue(run[k + 1], h, d)
  {
    assert Enabled(run[k], steps[k]) && run[k + 1] == Next(run[k], steps[k]);
    StepMoves(run[k], steps[k], h, d);
  }

  lemma Regroup(taken: seq<Packet>, q: seq<Packet>, x: seq<Packet>, y: seq<Packet>, r: seq<Packet>)
    requires q + x == y + r
    ensures taken + q + x == taken + y + r
  {
    assert taken + q + x == taken + (q + x);
  }

  lemma OneMore(run: seq<Sys>, steps: seq<Step>, k: nat, h: nat, d: Side)
    requires k < |steps| < |run|
    requires SentUpTo(run, steps, k, h, d) == TakenUpTo(run, steps, k, h, d) + Queue(run[k], h, d)
    requires Queue(run[k], h, d) + Sent(run[k], steps[k], h, d)
          == Taken(run[k], steps[k], h, d) + Queue(run[k + 1], h, d)
    ensures SentUpTo(run, steps, k + 1, h, d) == TakenUpTo(run, steps, k + 1, h, d) + Queue(run[k + 1], h, d)
  {
    var q, x, y := Queue(run[k], h, d), Sent(run[k], steps[k], h, d), Taken(run[k], steps[k], h, d);
    Regroup(TakenUpTo(run, steps, k, h, d), q, x, y, Queue(run[k + 1], h, d));
  }

  /** Every step of the run moves the queue as above. */
  ghost predicate Moving(run: seq<Sys>, steps: seq<Step>, h: nat, d: Side) {
    && |run| == |steps| + 1 && Queue(run[0], h, d) == []
    && forall k {:trigger steps[k]} :: 0 <= k < |steps| ==>
         Queue(run[k], h, d) + Sent(run[k], steps[k], h, d) == Taken(run[k], steps[k], h, d) + Queue(run[k + 1], h, d)
  }

  lemma RunIsMoving(run: seq<Sys>, steps: seq<Step>, h: nat, d: Side)
    requires IsRun(run, steps)
    ensures Moving(run, steps, h, d)
  {
    assert run[0].peers == [];
    forall k {:trigger steps[k]} | 0 <= k < |steps|
      ensures Queue(run[k], h, d) + Sent(run[k], steps[k], h, d)
           == Taken(run[k], steps[k], h, d) + Queue(run[k + 1], h, d)
    {
      MovesAt(run, steps, k, h, d);
    }
  }

  lemma {:induction false} MovingIsOrdered(run: seq<Sys>, steps: seq<Step>, i: nat, h: nat, d: Side)
    requires Moving(run, steps, h, d) && i <= |steps|
    ensures SentUpTo(run, steps, i, h, d) == TakenUpTo(run, steps, i, h, d) + Queue(run[i], h, d)
  {
    if i > 0 {
      MovingIsOrdered(run, steps, i - 1, h, d);
      assert run[i - 1 + 1] == run[i];
      OneMore(run, steps, i - 1, h, d);
    }
  }

  /**
   * In every run each channel is first in, first out, and loses and repeats nothing: all that was
   * ever sent on it is all that was ever taken from it, followed by its queue.
   */
  lemma FirstInFirstOut(run: seq<Sys>, steps: seq<Step>, i: nat, h: nat, d: Side)
    requires IsRun(run, steps) && i <= |steps|
    ensures SentUpTo(run, steps, i, h, d) == TakenUpTo(run, steps, i, h, d) + Queue(run[i], h, d)
  {
    RunIsMoving(run, steps, h, d);
    MovingIsOrdered(run, steps, i, h, d);
  }

  /** No queue is longer than 2000 packets ... */
  lemma {:induction false} QueuesAreBounded(run: seq<Sys>, steps: seq<Step>, i: nat, h: nat, d: Side)
    requires IsRun(run, steps) && i <= |steps|
    ensures |Queue(run[i], h, d)| <= 2000
  {
    if i > 0 {
      var k := i - 1;
      QueuesAreBounded(run, steps, k, h, d);
      MovesAt(run, steps, k, h, d);
      var q, x, y := Queue(run[k], h, d), Sent(run[k], steps[k], h, d), Taken(run[k], steps[k], h, d);
      assert |q + x| == |y + Queue(run[i], h, d)|;
    }
  }

  predicate SmallBatches(c: VpnPeer) {
    forall j :: 0 <= j < |c.senders| ==> |c.senders[j]| <= 100
  }

  ghost predicate AllSmall(s: Sys) {
    forall h :: 0 <= h < |s.peers| ==> SmallBatches(s.peers[h])
  }

  ghost predicate SameBatches(s: Sys, t: Sys) {
    |t.peers| == |s.peers| && forall h :: 0 <= h < |s.peers| ==> t.peers[h].senders == s.peers[h].senders
  }

  lemma ReaderLeavesBatches(s: Sys, r: ReaderStep)
    requires ReaderCan(s, r)
    ensures SameBatches(s, ReaderNext(s, r))
  {
  }

  lemma WriterLeavesBatches(s: Sys, w: WriterStep)
    requires WriterCan(s, w) && !w.Refresh?
    ensures SameBatches(s, WriterNext(s, w))
  {
  }

  /** Only the background goroutines of a peer touch its batches. */
  lemma BatchesStay(s: Sys, e: Step)
    requires Enabled(s, e) && !e.ByPeer? && !(e.ByWriter? && e.w.Refresh?)
    ensures SameBatches(s, Next(s, e))
  {
    match e
    case ByReader(r) => ReaderLeavesBatches(s, r);
    case ByWriter(w) => WriterLeavesBatches(s, w);
    case _ =>
  }

  lemma PeerKeepsSmall(c: VpnPeer, b: PeerStep)
    requires SmallBatches(c) && PeerCan(c, b)
    ensures SmallBatches(PeerNext(c, b))
  {
  }

  lemma StepKeepsSmall(s: Sys, e: Step)
    requires AllSmall(s) && Enabled(s, e)
    ensures AllSmall(Next(s, e))
  {
    if e.ByPeer? {
      PeerKeepsSmall(s.peers[e.h], e.b);
    } else if !(e.ByWriter? && e.w.Refresh?) {
      BatchesStay(s, e);
    }
  }

  /** ... and no sender holds more than 100. */
  lemma {:induction false} BatchesAreBounded(run: seq<Sys>, steps: seq<Step>, i: nat)
    requires IsRun(run, steps) && i <= |steps|
    ensures AllSmall(run[i])
  {
    if i > 0 {
      BatchesAreBounded(run, steps, i - 1);
      assert Enabled(run[i - 1], steps[i - 1]) && run[i - 1 + 1] == Next(run[i - 1], steps[i - 1]);
      StepKeepsSmall(run[i - 1], steps[i - 1]);
    }
  }

  // ----- Batches are in order

  function TakenBy(c: VpnPeer, j: nat, m: nat): (r: VpnPeer)
    requires j < |c.senders| && m <= |c.outbound.queue| && |c.senders[j]| + m <= 100
    ensures r == c.(outbound := c.outbound.(queue := c.outbound.queue[m..]),
                    senders := c.senders[j := c.senders[j] + c.outbound.queue[..m]])
  {
    if m == 0 then
      assert c.outbound.queue[0..] == c.outbound.queue && c.senders[j] + c.outbound.queue[..0] == c.senders[j];
      c
    else
      var b := TakenBy(c, j, m - 1);
      assert c.outbound.queue[m - 1..][1..] == c.outbound.queue[m..];
      assert c.outbound.queue[..m] == c.outbound.queue[..m - 1] + [c.outbound.queue[m - 1]];
      assert c.senders[j] + c.outbound.queue[..m] == b.senders[j] + [b.outbound.queue[0]];
      PeerNext(b, SenderTake(j))
  }

  // ----- What can happen

  ghost predicate IsPath(path: seq<Sys>, steps: seq<Step>) {
    && |path| == |steps| + 1
    && forall i {:trigger steps[i]} :: 0 <= i < |steps| ==>
         Enabled(path[i], steps[i]) && path[i + 1] == Next(path[i], steps[i])
  }

  ghost predicate Leads(s: Sys, t: Sys) {
    exists path, steps :: IsPath(path, steps) && path[0] == s && path[|steps|] == t
  }

  lemma Stay(s: Sys)
    ensures Leads(s, s)
  {
    assert IsPath([s], []);
  }

  lemma Then(s: Sys, t: Sys, e: Step)
    requires Leads(s, t) && Enabled(t, e)
    ensures Leads(s, Next(t, e))
  {
    var path, steps :| IsPath(path, steps) && path[0] == s && path[|steps|] == t;
    var path', steps' := path + [Next(t, e)], steps + [e];
    forall i {:trigger steps'[i]} | 0 <= i < |steps'|
      ensures Enabled(path'[i], steps'[i]) && path'[i + 1] == Next(path'[i], steps'[i])
    {
      if i < |steps| {
        assert Enabled(path[i], steps[i]) && path[i + 1] == Next(path[i], steps[i]);
      }
    }
    assert IsPath(path', steps') && path'[0] == s && path'[|steps'|] == Next(t, e);
  }

  /** The reader is idle and may look up `dst`. */
  ghost predicate CanRoute(s: Sys, dst: uint32) {
    && !s.reader.locked && s.reader.copy.None? && s.writer.Free? && !s.isClosed
    && dst in s.index.routes && s.index.routes[dst] < |s.peers| && s.peers[s.index.routes[dst]].outbound.open
  }

  lemma Aims(s: Sys, dst: uint32) returns (t: Sys)
    requires CanRoute(s, dst)
    ensures Leads(s, t) && t == s.(reader := s.reader.(locked := true, target := Some(s.index.routes[dst])))
  {
    Stay(s);
    Then(s, s, ByReader(RLock));
    var u := Next(s, ByReader(RLock));
    Then(s, u, ByReader(Find(dst)));
    t := Next(u, ByReader(Find(dst)));
  }

  /**
   * A packet in a slot of the reader can reach the end of the queue of the peer its address
   * leads to, if there is room; otherwise it stays in its slot. Nothing else changes.
   */
  lemma PacketReachesPeer(s: Sys, i: nat, dst: uint32) returns (t: Sys)
    requires CanRoute(s, dst) && i < |s.reader.slots| && s.reader.slots[i].Some?
    ensures Leads(s, t)
    ensures var h := s.index.routes[dst]; var c, p := s.peers[h], s.reader.slots[i].value;
            var idle := s.reader.(target := None);
            if |c.outbound.queue| < 2000
            then t == s.(reader := idle.(slots := s.reader.slots[i := None]),
                         peers := s.peers[h := c.(outbound := Chan(true, c.outbound.queue + [p]))])
            else t == s.(reader := idle)
  {
    var u := Aims(s, dst);
    Then(s, u, ByReader(Forward(i)));
    var v := Next(u, ByReader(Forward(i)));
    Then(s, v, ByReader(RUnlock));
    t := Next(v, ByReader(RUnlock));
  }

  /** So can a copy of a broadcast, which otherwise goes to the pool. */
  lemma CopyReachesPeer(s: Sys, p: Packet, dst: uint32) returns (t: Sys)
    requires CanRoute(s, dst) && p in s.pool
    ensures Leads(s, t)
    ensures var h := s.index.routes[dst]; var c := s.peers[h];
            if |c.outbound.queue| < 2000
            then t == s.(reader := s.reader.(target := None), pool := s.pool - multiset{p},
                         peers := s.peers[h := c.(outbound := Chan(true, c.outbound.queue + [p]))])
            else t == s.(reader := s.reader.(target := None))
  {
    var u := Aims(s, dst);
    Then(s, u, ByReader(Copy(p)));
    var v := Next(u, ByReader(Copy(p)));
    Then(s, v, ByReader(ForwardCopy));
    var x := Next(v, ByReader(ForwardCopy));
    Then(s, x, ByReader(RUnlock));
    t := Next(x, ByReader(RUnlock));
    assert s.pool - multiset{p} + multiset([p]) == s.pool;
  }

  /** A packet from the device gets into an empty slot. */
  lemma DeviceFills(s: Sys, i: nat, p: Packet) returns (t: Sys)
    requires i < |s.reader.slots| && s.reader.slots[i].None? && p in s.pool
    ensures Leads(s, t)
    ensures t == s.(reader := s.reader.(slots := s.reader.slots[i := Some(p)]), pool := s.pool - multiset{p})
  {
    Stay(s);
    Then(s, s, ByReader(Fill(i, p)));
    t := Next(s, ByReader(Fill(i, p)));
  }

  /** The idle handler `k` serves a known peer, with an open channel. */
  ghost predicate CanServe(s: Sys, k: nat, h: nat) {
    && k < |s.handlers| && s.handlers[k] == Handler(s.handlers[k].peer, false, None, None)
    && s.writer.Free? && s.handlers[k].peer in s.index.peerOf && s.index.peerOf[s.handlers[k].peer] == h
    && h < |s.peers| && s.peers[h].inbound.open
  }

  /** The handler has received a packet and found the peer. */
  lemma Receives(s: Sys, k: nat, h: nat, p: Packet) returns (t: Sys)
    requires CanServe(s, k, h) && p in s.pool
    ensures Leads(s, t)
    ensures t == s.(pool := s.pool - multiset{p},
                    handlers := s.handlers[k := Handler(s.handlers[k].peer, true, Some(h), Some(p))])
  {
    Stay(s);
    Then(s, s, ByHandler(k, Get(p)));
    var a := Next(s, ByHandler(k, Get(p)));
    Then(s, a, ByHandler(k, LockRead));
    var b := Next(a, ByHandler(k, LockRead));
    Then(s, b, ByHandler(k, FindPeer));
    t := Next(b, ByHandler(k, FindPeer));
  }

  /**
   * A packet received on a stream of a known peer can reach the end of its inbound queue, if
   * there is room; otherwise it goes back to the pool. Nothing else changes.
   */
  lemma StreamDelivers(s: Sys, k: nat, h: nat, p: Packet) returns (t: Sys)
    requires CanServe(s, k, h) && p in s.pool
    ensures Leads(s, t)
    ensures var c := s.peers[h];
            if |c.inbound.queue| < 2000
            then t == s.(pool := s.pool - multiset{p},
                         peers := s.peers[h := c.(inbound := Chan(true, c.inbound.queue + [p]))])
            else t == s
  {
    var c := Receives(s, k, h, p);
    var d := Delivers(s, c, k, h, p);
    Then(s, d, ByHandler(k, UnlockRead));
    t := Next(d, ByHandler(k, UnlockRead));
    assert t.handlers == s.handlers;
    assert s.pool - multiset{p} + multiset([p]) == s.pool;
  }

  lemma Delivers(s: Sys, c: Sys, k: nat, h: nat, p: Packet) returns (d: Sys)
    requires Leads(s, c) && k < |c.handlers| && h < |c.peers| && c.peers[h].inbound.open
    requires c.handlers[k] == Handler(c.handlers[k].peer, true, Some(h), Some(p))
    ensures Leads(s, d)
    ensures var x, y := c.peers[h], c.handlers[k := c.handlers[k].(packet := None)];
            if |x.inbound.queue| < 2000
            then d == c.(handlers := y, peers := c.peers[h := x.(inbound := Chan(true, x.inbound.queue + [p]))])
            else d == c.(handlers := y, pool := c.pool + multiset([p]))
  {
    Then(s, c, ByHandler(k, Send));
    d := Next(c, ByHandler(k, Send));
  }

  /** A peer that is not known yet gets open, empty channels and a route. */
  lemma PeerIsAdded(s: Sys, id: PeerId, ip: uint32, senders: nat) returns (t: Sys)
    requires s.writer.Free? && !SomeReader(s) && id !in s.index.peerOf && |s.peers| == |s.index.entries|
    ensures Leads(s, t) && t.writer.Free?
    ensures var h := |s.peers|;
            && t.index.peerOf == s.index.peerOf[id := h] && t.index.routes == s.index.routes[ip := h]
            && |t.peers| == h + 1 && t.peers[..h] == s.peers
            && t.peers[h].inbound == Chan(true, []) && t.peers[h].outbound == Chan(true, [])
            && |t.peers[h].senders| == senders && t.pool == s.pool
  {
    Stay(s);
    Then(s, s, ByWriter(Lock));
    var u := Next(s, ByWriter(Lock));
    Then(s, u, ByWriter(Refresh(id, IPv4(ip), senders)));
    var v := Next(u, ByWriter(Refresh(id, IPv4(ip), senders)));
    Then(s, v, ByWriter(Unlock));
    t := Next(v, ByWriter(Unlock));
  }

  // ----- Closing

  /** The object `h` with both channels closed and the queues `i` and `o`, while `h` is being closed. */
  ghost function Closed(s: Sys, h: nat, i: seq<Packet>, o: seq<Packet>): Sys
    requires h < |s.peers|
  {
    s.(peers := s.peers[h := s.peers[h].(inbound := Chan(false, i), outbound := Chan(false, o))])
  }

  lemma {:induction false} DrainsInbound(s: Sys, t: Sys, h: nat, i: seq<Packet>, o: seq<Packet>) returns (u: Sys)
    requires Leads(s, t) && h < |t.peers| && Draining(t) && t.writer.h == h && t == Closed(t, h, i, o)
    ensures Leads(s, u) && u == Closed(t, h, [], o).(pool := t.pool + multiset(i))
    decreases |i|
  {
    if i == [] {
      u := t;
    } else {
      Then(s, t, ByWriter(DrainInbound));
      var v := Next(t, ByWriter(DrainInbound));
      assert i == [i[0]] + i[1..];
      assert v == Closed(t, h, i[1..], o).(pool := t.pool + multiset([i[0]]));
      u := DrainsInbound(s, v, h, i[1..], o);
    }
  }

  lemma {:induction false} DrainsOutbound(s: Sys, t: Sys, h: nat, o: seq<Packet>) returns (u: Sys)
    requires Leads(s, t) && h < |t.peers| && Draining(t) && t.writer.h == h && t == Closed(t, h, [], o)
    ensures Leads(s, u) && u == Closed(t, h, [], []).(pool := t.pool + multiset(o))
    decreases |o|
  {
    if o == [] {
      u := t;
    } else {
      Then(s, t, ByWriter(DrainOutbound));
      var v := Next(t, ByWriter(DrainOutbound));
      assert o == [o[0]] + o[1..];
      assert v == Closed(t, h, [], o[1..]).(pool := t.pool + multiset([o[0]]));
      u := DrainsOutbound(s, v, h, o[1..]);
    }
  }

  /** Both channels are closed. */
  lemma Closes(s: Sys, id: PeerId) returns (t: Sys)
    requires s.writer.Free? && !SomeReader(s) && id in s.index.peerOf && s.index.peerOf[id] < |s.peers|
    requires var c := s.peers[s.index.peerOf[id]]; c.inbound.open && c.outbound.open
    ensures var h := s.index.peerOf[id]; var c := s.peers[h];
            Leads(s, t) && t == Closed(s, h, c.inbound.queue, c.outbound.queue).(writer := Closing(id, h, true))
  {
    Stay(s);
    Then(s, s, ByWriter(Lock));
    var u := Next(s, ByWriter(Lock));
    Then(s, u, ByWriter(CloseInbound(id)));
    var v := Next(u, ByWriter(CloseInbound(id)));
    Then(s, v, ByWriter(CloseOutbound));
    t := Next(v, ByWriter(CloseOutbound));
  }

  /** And drained. */
  lemma ClosesAndDrains(s: Sys, id: PeerId) returns (t: Sys)
    requires s.writer.Free? && !SomeReader(s) && id in s.index.peerOf && s.index.peerOf[id] < |s.peers|
    requires var c := s.peers[s.index.peerOf[id]]; c.inbound.open && c.outbound.open
    ensures var h := s.index.peerOf[id]; var c := s.peers[h];
            && Leads(s, t)
            && t == Closed(s, h, [], []).(writer := Closing(id, h, true),
                                          pool := s.pool + multiset(c.inbound.queue) + multiset(c.outbound.queue))
  {
    var h := s.index.peerOf[id];
    var c := s.peers[h];
    var a := Closes(s, id);
    var b := DrainsInbound(s, a, h, c.inbound.queue, c.outbound.queue);
    t := DrainsOutbound(s, b, h, c.outbound.queue);
  }

  /** The closed peer leaves the index. */
  lemma Leaves(s: Sys, d: Sys, id: PeerId, h: nat) returns (t: Sys)
    requires Leads(s, d) && h < |d.peers| && d.writer == Closing(id, h, true) && d == Closed(d, h, [], [])
    ensures Leads(s, t) && t == d.(index := Drop(d.index, id), writer := Free)
  {
    Then(s, d, ByWriter(Forget));
    var e := Next(d, ByWriter(Forget));
    Then(s, e, ByWriter(Unlock));
    t := Next(e, ByWriter(Unlock));
  }

  /** A peer can be closed: it leaves the index, and what was queued for it is in the pool. */
  lemma PeerIsClosed(s: Sys, id: PeerId) returns (t: Sys)
    requires s.writer.Free? && !SomeReader(s) && id in s.index.peerOf && s.index.peerOf[id] < |s.peers|
    requires s.index.peerOf[id] < |s.index.entries|
    requires var c := s.peers[s.index.peerOf[id]]; c.inbound.open && c.outbound.open
    ensures Leads(s, t) && t.writer.Free?
    ensures var h := s.index.peerOf[id]; var c := s.peers[h];
            && t.index.peerOf == s.index.peerOf - {id}
            && t.index.routes == s.index.routes - {s.index.entries[h].localIP}
            && t.peers == s.peers[h := c.(inbound := Chan(false, []), outbound := Chan(false, []))]
            && t.pool == s.pool + multiset(c.inbound.queue) + multiset(c.outbound.queue)
  {
    var d := ClosesAndDrains(s, id);
    t := Leaves(s, d, id, s.index.peerOf[id]);
  }

  // ----- Nobody keeps a packet for ever

  /** A packet that the reader or a stream handler holds can go back to the pool, and nothing else changes. */
  lemma HeldPacketReturns(s: Sys, i: nat, k: nat) returns (t: Sys, u: Sys)
    requires i < |s.reader.slots| && s.reader.slots[i].Some? && k < |s.handlers| && s.handlers[k].packet.Some?
    ensures Leads(s, t) && t == s.(reader := s.reader.(slots := s.reader.slots[i := None]),
                                   pool := s.pool + multiset{s.reader.slots[i].value})
    ensures Leads(s, u) && u == s.(handlers := s.handlers[k := s.handlers[k].(packet := None)],
                                   pool := s.pool + multiset{s.handlers[k].packet.value})
  {
    Stay(s);
    Then(s, s, ByReader(Reject(i)));
    Then(s, s, ByHandler(k, Put));
    t, u := Next(s, ByReader(Reject(i))), Next(s, ByHandler(k, Put));
  }

  /** And a packet in the pool can be collected: then it is nowhere. */
  lemma PooledPacketGoes(s: Sys, p: Packet) returns (t: Sys)
    requires p in s.pool
    ensures Leads(s, t) && t == s.(pool := t.pool, live := t.live)
    ensures t.pool == s.pool - multiset{p} && p !in t.live && forall q :: q in s.live && q != p ==> q in t.live
  {
    Stay(s);
    Then(s, s, Collect(p));
    t := Next(s, Collect(p));
  }

  /** Once the tunnel is closed, the reader routes nothing any more. */
  lemma ShutdownStopsRouting(s: Sys, dst: uint32)
    requires s.writer.Holding?
    ensures !ReaderCan(Next(s, ByWriter(Shutdown)), Find(dst))
  {
  }
}
