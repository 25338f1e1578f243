/**
 * No interleaving sends on a closed channel or closes one twice: whoever is about to send
 * holds the read lock since it looked its peer up, and the channels of a peer in the index
 * are open unless the holder of the write lock is closing that very peer.
 */
module ChannelSafety {
  import opened Peers
  import opened TunnelIndex
  import opened TunnelSteps

  ghost predicate BothOpen(c: VpnPeer) {
    c.inbound.open && c.outbound.open
  }

  /** A peer of the index is open, but for the one that is being closed. */
  ghost predicate PeerOpen(s: Sys, id: PeerId)
    requires id in s.index.peerOf
  {
    var h := s.index.peerOf[id];
    h < |s.peers| && (BothOpen(s.peers[h]) || (s.writer.Closing? && s.writer.id == id))
  }

  ghost predicate ClosingOk(s: Sys) {
    s.writer.Closing? ==>
      && s.writer.id in s.index.peerOf && s.index.peerOf[s.writer.id] == s.writer.h && s.writer.h < |s.peers|
      && (!s.writer.both ==> s.peers[s.writer.h].outbound.open)
  }

  /** Someone who aims at a peer holds the read lock, so nobody holds the write lock. */
  ghost predicate AimOk(s: Sys, locked: bool, target: Option<nat>) {
    && (locked ==> s.writer.Free?)
    && (target.Some? ==> locked && target.value < |s.peers| && BothOpen(s.peers[target.value]))
  }

  ghost predicate HandlersOk(s: Sys) {
    forall k :: 0 <= k < |s.handlers| ==> AimOk(s, s.handlers[k].locked, s.handlers[k].target)
  }

  ghost predicate IndexOk(s: Sys) {
    && Linked(s.index) && |s.peers| == |s.index.entries|
    && forall id :: id in s.index.peerOf ==> PeerOpen(s, id)
  }

  ghost predicate Safe(s: Sys) {
    && IndexOk(s) && ClosingOk(s) && HandlersOk(s) && AimOk(s, s.reader.locked, s.reader.target) && !s.panicked
  }

  /** The flags that matter here: a step that keeps them, the lock and the index keeps `Safe`. */
  ghost predicate SameOpen(a: seq<VpnPeer>, b: seq<VpnPeer>) {
    && |a| == |b|
    && forall h :: 0 <= h < |a| ==> a[h].inbound.open == b[h].inbound.open && a[h].outbound.open == b[h].outbound.open
  }

  lemma SameOpenKeeps(s: Sys, t: Sys)
    requires Safe(s) && SameOpen(s.peers, t.peers) && t.index == s.index && t.writer == s.writer && !t.panicked
    ensures IndexOk(t) && ClosingOk(t)
    ensures forall locked, target :: AimOk(s, locked, target) ==> AimOk(t, locked, target)
  {
    forall id | id in t.index.peerOf
      ensures PeerOpen(t, id)
    {
      assert PeerOpen(s, id);
    }
  }

  lemma ReaderKeepsSafe(s: Sys, r: ReaderStep)
    requires Safe(s) && ReaderCan(s, r)
    ensures Safe(ReaderNext(s, r))
  {
    var t := ReaderNext(s, r);
    SameOpenKeeps(s, t);
    if r.Find? {
      assert RouteLinked(s.index, r.dst);
      var id := s.index.entries[s.index.routes[r.dst]].peerID;
      assert PeerOpen(s, id);
    }
  }

  lemma HandlerKeepsSafe(s: Sys, k: nat, x: HandlerStep)
    requires Safe(s) && k < |s.handlers| && HandlerCan(s, k, x)
    ensures Safe(HandlerNext(s, k, x))
  {
    var t := HandlerNext(s, k, x);
    assert AimOk(s, s.handlers[k].locked, s.handlers[k].target);
    SameOpenKeeps(s, t);
    if x.FindPeer? {
      assert PeerOpen(s, s.handlers[k].peer);
    }
  }

  lemma PeerKeepsSafe(s: Sys, h: nat, b: PeerStep)
    requires Safe(s) && h < |s.peers| && PeerCan(s.peers[h], b)
    ensures Safe(Next(s, ByPeer(h, b)))
  {
    SameOpenKeeps(s, Next(s, ByPeer(h, b)));
  }

  /** A refresh may add a peer object, which is open, and moves or adds routes. */
  lemma RefreshKeepsSafe(s: Sys, id: PeerId, ip: IPText, senders: nat)
    requires Safe(s) && s.writer.Holding?
    ensures Safe(Refreshing(s, id, ip, senders))
  {
    var t := Refreshing(s, id, ip, senders);
    UpsertKeepsLinked(s.index, id, ip);
    forall other | other in t.index.peerOf
      ensures PeerOpen(t, other)
    {
      if other in s.index.peerOf {
        assert PeerOpen(s, other);
      }
    }
    NobodyReads(s);
    NobodyAims(t);
  }

  /** While the write lock is held nobody holds the read lock, and so nobody aims. */
  lemma NobodyReads(s: Sys)
    requires Safe(s) && !s.writer.Free?
    ensures !SomeReader(s)
    ensures s.reader.target.None? && forall k :: 0 <= k < |s.handlers| ==> s.handlers[k].target.None?
  {
    forall k | 0 <= k < |s.handlers|
      ensures !s.handlers[k].locked && s.handlers[k].target.None?
    {
      assert AimOk(s, s.handlers[k].locked, s.handlers[k].target);
    }
  }

  lemma NobodyAims(t: Sys)
    requires !SomeReader(t)
    requires t.reader.target.None? && forall k :: 0 <= k < |t.handlers| ==> t.handlers[k].target.None?
    ensures HandlersOk(t) && AimOk(t, t.reader.locked, t.reader.target)
  {
  }

  /** Two peers of the index are two objects, so closing one leaves the other open. */
  lemma ClosingKeepsSafe(s: Sys, w: WriterStep)
    requires Safe(s) && WriterCan(s, w) && (w.CloseInbound? || w.CloseOutbound?)
    ensures Safe(WriterNext(s, w))
  {
    var t := WriterNext(s, w);
    NobodyReads(s);
    NobodyAims(t);
    forall id | id in t.index.peerOf
      ensures PeerOpen(t, id)
    {
      assert PeerOpen(s, id);
      assert s.index.entries[s.index.peerOf[id]].peerID == id;
    }
    if w.CloseInbound? {
      assert PeerOpen(s, w.id);
    }
  }

  lemma ForgetKeepsSafe(s: Sys)
    requires Safe(s) && WriterCan(s, Forget)
    ensures Safe(WriterNext(s, Forget))
  {
    var t := WriterNext(s, Forget);
    DropKeepsLinked(s.index, s.writer.id);
    NobodyReads(s);
    NobodyAims(t);
    forall id | id in t.index.peerOf
      ensures PeerOpen(t, id)
    {
      assert PeerOpen(s, id);
    }
  }

  lemma WriterKeepsSafe(s: Sys, w: WriterStep)
    requires Safe(s) && WriterCan(s, w)
    ensures Safe(WriterNext(s, w))
  {
    var t := WriterNext(s, w);
    match w
    case Refresh(id, ip, senders) => RefreshKeepsSafe(s, id, ip, senders);
    case CloseInbound(id) => ClosingKeepsSafe(s, w);
    case CloseOutbound => ClosingKeepsSafe(s, w);
    case Forget => ForgetKeepsSafe(s);
    case DrainInbound => SameOpenKeeps(s, t);
    case DrainOutbound => SameOpenKeeps(s, t);
    case Shutdown => SameOpenKeeps(s, t);
    case Lock => LockingKeepsSafe(s, t);
    case Unlock => LockingKeepsSafe(s, t);
  }

  lemma LockingKeepsSafe(s: Sys, t: Sys)
    requires Safe(s) && !SomeReader(s) && !s.writer.Closing?
    requires t == s.(writer := t.writer) && !t.writer.Closing?
    ensures Safe(t)
  {
    forall id | id in t.index.peerOf
      ensures PeerOpen(t, id)
    {
      assert PeerOpen(s, id);
    }
    forall k | 0 <= k < |s.handlers|
      ensures s.handlers[k].target.None?
    {
      assert AimOk(s, s.handlers[k].locked, s.handlers[k].target);
    }
    NobodyAims(t);
  }

  lemma StepKeepsSafe(s: Sys, e: Step)
    requires Safe(s) && Enabled(s, e)
    ensures Safe(Next(s, e))
  {
    match e
    case Collect(p) => SameOpenKeeps(s, Next(s, e));
    case Accept(peer) => SameOpenKeeps(s, Next(s, e));
    case ByReader(r) => ReaderKeepsSafe(s, r);
    case ByHandler(k, x) => HandlerKeepsSafe(s, k, x);
    case ByPeer(h, b) => PeerKeepsSafe(s, h, b);
    case ByWriter(w) => WriterKeepsSafe(s, w);
  }

  /**
   * In every state of every run: no send on a closed channel and no channel closed twice; each
   * route leads to a live peer with that address; a captured target is an open peer.
   */
  lemma {:induction false} RunIsSafe(run: seq<Sys>, steps: seq<Step>, i: nat)
    requires IsRun(run, steps) && i < |run|
    ensures Safe(run[i]) && !run[i].panicked && Linked(run[i].index)
  {
    if i > 0 {
      RunIsSafe(run, steps, i - 1);
      StepKeepsSafe(run[i - 1], steps[i - 1]);
      assert run[i - 1 + 1] == Next(run[i - 1], steps[i - 1]);
    }
  }
}
