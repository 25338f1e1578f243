/**
 * The goroutines of the tunnel as a step system (service/tunnel.go with the reader loop and
 * the packet pool of vpn/vpn.go): stream handlers and the TUN reader hold the read lock while
 * they look a peer up and send to its channels; refreshes and `Close` hold the write lock;
 * the senders and the inbound handler of each peer receive without any lock, even while a
 * closing goroutine drains the same channels.
 *
 * A step is one channel operation, one lock operation, one pool operation or one change of
 * the indexes. A send on a closed channel, or closing one twice, sets `panicked`.
 */
module TunnelSteps {
  import OutboundStream
  import opened Bytes
  import opened InboundBatch
  import opened Peers
  import opened TunnelIndex

  /** Capacity of each of the two channels of a peer. */
  const CHAN_CAP := 2000

  datatype Option<T> = None | Some(value: T)

  /** A channel: `open` until it is closed; what was sent before that can still be received. */
  datatype Chan = Chan(open: bool, queue: seq<Packet>)

  /** One peer object: its channels, and the batches its background goroutines hold. */
  datatype VpnPeer = VpnPeer(inbound: Chan, outbound: Chan, senders: seq<seq<Packet>>, inBatch: seq<Packet>)

  /** The write lock: free, held, or held inside the closing of peer object `h`. */
  datatype Writer = Free | Holding | Closing(id: PeerId, h: nat, both: bool)

  /** A goroutine of StreamHandler: its remote peer, and what it holds. */
  datatype Handler = Handler(peer: PeerId, locked: bool, target: Option<nat>, packet: Option<Packet>)

  /** The TUN reader: its slice of packets, and the copy it makes for a broadcast. */
  datatype Reader = Reader(locked: bool, slots: seq<Option<Packet>>, target: Option<nat>, copy: Option<Packet>)

  datatype Sys = Sys(
    index: Index,
    peers: seq<VpnPeer>,       // by peer object, like the entries of the index
    pool: multiset<Packet>,
    live: set<Packet>,         // packet objects made and not yet collected
    writer: Writer,
    reader: Reader,
    handlers: seq<Handler>,
    isClosed: bool,
    panicked: bool)

  datatype ReaderStep =
    | Fill(i: nat, packet: Packet) | Reject(i: nat) | RLock | Find(dst: uint32) | Forward(i: nat)
    | Copy(packet: Packet) | ForwardCopy | RUnlock

  datatype HandlerStep = Get(packet: Packet) | Put | LockRead | FindPeer | Send | UnlockRead

  datatype PeerStep = SenderTake(j: nat) | SenderDone(j: nat) | InboundTake | InboundDone(parses: Packet -> bool)

  datatype WriterStep =
    | Lock | Refresh(id: PeerId, ip: IPText, senders: nat) | CloseInbound(id: PeerId) | CloseOutbound
    | DrainInbound | DrainOutbound | Forget | Shutdown | Unlock

  datatype Step =
    | Collect(packet: Packet)                 // the pool lets a packet go
    | Accept(peer: PeerId)                    // a new stream from a known peer
    | ByReader(r: ReaderStep)
    | ByHandler(k: nat, x: HandlerStep)
    | ByPeer(h: nat, b: PeerStep)
    | ByWriter(w: WriterStep)

  // ----- Pool

  /** The pool hands out a packet it holds, or a new one. */
  predicate CanGet(s: Sys, p: Packet) {
    p in s.pool || p !in s.live
  }

  function Took(s: Sys, p: Packet): Sys {
    if p in s.pool then s.(pool := s.pool - multiset{p}) else s.(live := s.live + {p})
  }

  function Returning(s: Sys, ps: seq<Packet>): Sys {
    s.(pool := s.pool + multiset(ps))
  }

  // ----- TUN reader

  predicate ReaderCan(s: Sys, r: ReaderStep) {
    var me := s.reader;
    match r
    case Fill(i, p) => i < |me.slots| && me.slots[i].None? && CanGet(s, p)
    case Reject(i) => i < |me.slots| && me.slots[i].Some?
    case RLock => !me.locked && s.writer.Free?
    case Find(dst) => me.locked && !s.isClosed && dst in s.index.routes && me.copy.None?
    case Forward(i) => i < |me.slots| && me.slots[i].Some? && me.copy.None? && Aimed(s, me.target)
    case Copy(p) => me.target.Some? && me.copy.None? && CanGet(s, p)
    case ForwardCopy => me.copy.Some? && Aimed(s, me.target)
    case RUnlock => me.locked && me.copy.None?
  }

  predicate Aimed(s: Sys, target: Option<nat>) {
    target.Some? && target.value < |s.peers|
  }

  function WithPeer(s: Sys, h: nat, c: VpnPeer): Sys
    requires h < |s.peers|
  {
    s.(peers := s.peers[h := c])
  }

  function WithSlot(s: Sys, i: nat, o: Option<Packet>): Sys
    requires i < |s.reader.slots|
  {
    s.(reader := s.reader.(slots := s.reader.slots[i := o]))
  }

  /** A peer after one more packet for the remote side. */
  function Outgoing(c: VpnPeer, p: Packet): VpnPeer {
    c.(outbound := c.outbound.(queue := c.outbound.queue + [p]))
  }

  function Incoming(c: VpnPeer, p: Packet): VpnPeer {
    c.(inbound := c.inbound.(queue := c.inbound.queue + [p]))
  }

  /** A packet stays in its slot when the channel is full. */
  function Forwarded(s: Sys, h: nat, i: nat, p: Packet): Sys
    requires h < |s.peers| && i < |s.reader.slots|
  {
    if !s.peers[h].outbound.open then s.(panicked := true)
    else if |s.peers[h].outbound.queue| >= CHAN_CAP then s
    else WithPeer(WithSlot(s, i, None), h, Outgoing(s.peers[h], p))
  }

  /** A broadcast copy goes back to the pool when the channel is full. */
  function CopyForwarded(s: Sys, h: nat, p: Packet): Sys
    requires h < |s.peers|
  {
    var t := s.(reader := s.reader.(copy := None));
    if !s.peers[h].outbound.open then s.(panicked := true)
    else if |s.peers[h].outbound.queue| >= CHAN_CAP then Returning(t, [p])
    else WithPeer(t, h, Outgoing(s.peers[h], p))
  }

  function ReaderNext(s: Sys, r: ReaderStep): Sys
    requires ReaderCan(s, r)
  {
    var me := s.reader;
    match r
    case Fill(i, p) => WithSlot(Took(s, p), i, Some(p))
    case Reject(i) => WithSlot(Returning(s, [me.slots[i].value]), i, None)
    case RLock => s.(reader := me.(locked := true))
    case Find(dst) => s.(reader := me.(target := Some(s.index.routes[dst])))
    case Forward(i) => Forwarded(s, me.target.value, i, me.slots[i].value)
    case Copy(p) => Took(s, p).(reader := me.(copy := Some(p)))
    case ForwardCopy => CopyForwarded(s, me.target.value, me.copy.value)
    case RUnlock => s.(reader := me.(locked := false, target := None))
  }

  // ----- Stream handlers

  predicate HandlerCan(s: Sys, k: nat, x: HandlerStep)
    requires k < |s.handlers|
  {
    var me := s.handlers[k];
    match x
    case Get(p) => me.packet.None? && CanGet(s, p)
    case Put => me.packet.Some?
    case LockRead => !me.locked && s.writer.Free?
    case FindPeer => me.locked && me.peer in s.index.peerOf
    case Send => me.packet.Some? && Aimed(s, me.target)
    case UnlockRead => me.locked
  }

  function WithHandler(s: Sys, k: nat, x: Handler): Sys
    requires k < |s.handlers|
  {
    s.(handlers := s.handlers[k := x])
  }

  /** A received packet goes back to the pool when the channel is full. */
  function Delivered(s: Sys, k: nat, h: nat, p: Packet): Sys
    requires k < |s.handlers| && h < |s.peers|
  {
    var t := WithHandler(s, k, s.handlers[k].(packet := None));
    if !s.peers[h].inbound.open then s.(panicked := true)
    else if |s.peers[h].inbound.queue| >= CHAN_CAP then Returning(t, [p])
    else WithPeer(t, h, Incoming(s.peers[h], p))
  }

  function HandlerNext(s: Sys, k: nat, x: HandlerStep): Sys
    requires k < |s.handlers| && HandlerCan(s, k, x)
  {
    var me := s.handlers[k];
    match x
    case Get(p) => WithHandler(Took(s, p), k, me.(packet := Some(p)))
    case Put => WithHandler(Returning(s, [me.packet.value]), k, me.(packet := None))
    case LockRead => WithHandler(s, k, me.(locked := true))
    case FindPeer => WithHandler(s, k, me.(target := Some(s.index.peerOf[me.peer])))
    case Send => Delivered(s, k, me.target.value, me.packet.value)
    case UnlockRead => WithHandler(s, k, me.(locked := false, target := None))
  }

  // ----- Background goroutines of a peer, and the drain

  predicate PeerCan(c: VpnPeer, b: PeerStep) {
    match b
    case SenderTake(j) =>
      c.outbound.queue != [] && j < |c.senders| && |c.senders[j]| < OutboundStream.PACKETS_BATCH_SIZE
    case SenderDone(j) => j < |c.senders|
    case InboundTake => c.inbound.queue != []
    case InboundDone(parses) => true
  }

  function Dequeued(c: Chan): Chan
    requires c.queue != []
  {
    c.(queue := c.queue[1..])
  }

  function PeerNext(c: VpnPeer, b: PeerStep): VpnPeer
    requires PeerCan(c, b)
  {
    match b
    case SenderTake(j) =>
      c.(outbound := Dequeued(c.outbound), senders := c.senders[j := c.senders[j] + [c.outbound.queue[0]]])
    case SenderDone(j) => c.(senders := c.senders[j := []])
    case InboundTake => c.(inbound := Dequeued(c.inbound), inBatch := c.inBatch + [c.inbound.queue[0]])
    case InboundDone(parses) => c.(inBatch := [])
  }

  /** What the step hands to the pool. */
  function PeerPuts(c: VpnPeer, b: PeerStep): seq<Packet>
    requires PeerCan(c, b)
  {
    match b
    case SenderDone(j) => c.senders[j]
    case InboundDone(parses) => Returned(parses, c.inBatch)
    case SenderTake(j) => []
    case InboundTake => []
  }

  /** Peer object `h` becomes `c` and hands `puts` to the pool. */
  function Paid(s: Sys, h: nat, c: VpnPeer, puts: seq<Packet>): Sys
    requires h < |s.peers|
  {
    WithPeer(Returning(s, puts), h, c)
  }

  // ----- Refresh and close

  ghost predicate SomeReader(s: Sys) {
    s.reader.locked || exists k :: 0 <= k < |s.handlers| && s.handlers[k].locked
  }

  ghost predicate WriterCan(s: Sys, w: WriterStep) {
    match w
    case Lock => s.writer.Free? && !SomeReader(s)
    case Refresh(id, ip, senders) => s.writer.Holding?
    case CloseInbound(id) => s.writer.Holding? && id in s.index.peerOf && s.index.peerOf[id] < |s.peers|
    case CloseOutbound => s.writer.Closing? && !s.writer.both && s.writer.h < |s.peers|
    case DrainInbound => Draining(s) && s.peers[s.writer.h].inbound.queue != []
    case DrainOutbound =>
      Draining(s) && s.peers[s.writer.h].inbound.queue == [] && s.peers[s.writer.h].outbound.queue != []
    case Forget => Draining(s) && s.peers[s.writer.h].inbound.queue == [] && s.peers[s.writer.h].outbound.queue == []
    case Shutdown => s.writer.Holding?
    case Unlock => s.writer.Holding?
  }

  predicate Draining(s: Sys) {
    s.writer.Closing? && s.writer.both && s.writer.h < |s.peers|
  }

  function NewPeer(senders: nat): VpnPeer {
    VpnPeer(Chan(true, []), Chan(true, []), seq(senders, i => []), [])
  }

  function Refreshing(s: Sys, id: PeerId, ip: IPText, senders: nat): Sys {
    var ix := Upsert(s.index, id, ip);
    s.(index := ix, peers := if |ix.entries| == |s.index.entries| then s.peers else s.peers + [NewPeer(senders)])
  }

  function InboundClosed(s: Sys, id: PeerId, h: nat): Sys
    requires h < |s.peers|
  {
    var c := s.peers[h];
    WithPeer(s, h, c.(inbound := c.inbound.(open := false)))
      .(writer := Closing(id, h, false), panicked := s.panicked || !c.inbound.open)
  }

  function OutboundClosed(s: Sys, id: PeerId, h: nat): Sys
    requires h < |s.peers|
  {
    var c := s.peers[h];
    WithPeer(s, h, c.(outbound := c.outbound.(open := false)))
      .(writer := Closing(id, h, true), panicked := s.panicked || !c.outbound.open)
  }

  ghost function WriterNext(s: Sys, w: WriterStep): Sys
    requires WriterCan(s, w)
  {
    match w
    case Lock => s.(writer := Holding)
    case Refresh(id, ip, senders) => Refreshing(s, id, ip, senders)
    case CloseInbound(id) => InboundClosed(s, id, s.index.peerOf[id])
    case CloseOutbound => OutboundClosed(s, s.writer.id, s.writer.h)
    case DrainInbound =>
      var c := s.peers[s.writer.h];
      WithPeer(Returning(s, [c.inbound.queue[0]]), s.writer.h, c.(inbound := Dequeued(c.inbound)))
    case DrainOutbound =>
      var c := s.peers[s.writer.h];
      WithPeer(Returning(s, [c.outbound.queue[0]]), s.writer.h, c.(outbound := Dequeued(c.outbound)))
    case Forget => s.(index := Drop(s.index, s.writer.id), writer := Holding)
    case Shutdown => s.(isClosed := true)
    case Unlock => s.(writer := Free)
  }

  // ----- Runs

  ghost predicate Enabled(s: Sys, e: Step) {
    match e
    case Collect(p) => p in s.pool
    case Accept(peer) => s.writer.Free? && peer in s.index.peerOf
    case ByReader(r) => ReaderCan(s, r)
    case ByHandler(k, x) => k < |s.handlers| && HandlerCan(s, k, x)
    case ByPeer(h, b) => h < |s.peers| && PeerCan(s.peers[h], b)
    case ByWriter(w) => WriterCan(s, w)
  }

  ghost function Next(s: Sys, e: Step): Sys
    requires Enabled(s, e)
  {
    match e
    case Collect(p) => s.(pool := s.pool - multiset{p}, live := s.live - {p})
    case Accept(peer) => s.(handlers := s.handlers + [Handler(peer, false, None, None)])
    case ByReader(r) => ReaderNext(s, r)
    case ByHandler(k, x) => HandlerNext(s, k, x)
    case ByPeer(h, b) => Paid(s, h, PeerNext(s.peers[h], b), PeerPuts(s.peers[h], b))
    case ByWriter(w) => WriterNext(s, w)
  }

  /** A tunnel that was just made: no peer yet, an empty pool, a reader without packets. */
  ghost predicate Init(s: Sys) {
    && s == Sys(EMPTY, [], multiset{}, {}, Free, Reader(false, s.reader.slots, None, None), [], false, false)
    && forall i :: 0 <= i < |s.reader.slots| ==> s.reader.slots[i] == None
  }

  ghost predicate IsRun(run: seq<Sys>, steps: seq<Step>) {
    && |run| == |steps| + 1 && Init(run[0])
    && forall i {:trigger steps[i]} :: 0 <= i < |steps| ==>
         Enabled(run[i], steps[i]) && run[i + 1] == Next(run[i], steps[i])
  }
}
