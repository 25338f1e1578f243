/**
 * Delivery along whole runs: with the indexes that the refreshes of a run leave, a packet read
 * from the TUN device reaches the channel of the known peer with its destination address, and
 * of nobody else; only the two broadcast addresses are never delivered to a single peer.
 */
module DeliveredRuns {
  import D = TunDelivery
  import opened Bytes
  import opened NodeState
  import opened Peers
  import opened RoutedRuns
  import opened Routing
  import opened TunnelIndex

  /** During the call the packet of slot `i` itself went into the channel of peer `id`. */
  ghost predicate Reached(net: D.Net, queues: D.Queues, i: nat, id: PeerId) {
    && id in net.index.peerOf && net.index.peerOf[id] < |queues|
    && D.Sent(i, false) in queues[net.index.peerOf[id]].Log()
  }

  /** A completed call of HandleReadPackets; no channel had seen the packet of slot `i` before. */
  ghost predicate Call(net: D.Net, slice: seq<D.Cell>, was: D.Queues, queues: D.Queues, i: nat) {
    net.Delivered(slice, |slice|, was, queues) && i < |slice| && slice[i].Held? && net.NewTo(was, i)
  }

  /**
   * Along every run: the packet reaches peer `id` if and only if a scan of the configuration
   * finds `id` under its destination, the destination is not a broadcast address, and the
   * channel has room for it in its turn.
   */
  lemma UnicastIsAScan(n: Node, ix: Index, turns: seq<Turn>, net: D.Net,
                       slice: seq<D.Cell>, was: D.Queues, queues: D.Queues, i: nat, id: PeerId)
    requires Ready(n) && Synced(n, ix) && RunOk(n, ix, turns) && id != ""
    requires net.index == RunIndex(n, ix, turns) && Call(net, slice, was, queues, i)
    ensures var known, dst := RunNode(n, turns).known, slice[i].dst;
            Reached(net, queues, i, id) <==>
              && id in known && known[id].ip == IPv4(dst)
              && dst != net.bcast && dst != 0xffff_ffff && net.Fitting(slice, i, was)
  {
    var dst := slice[i].dst;
    LookupIsAScan(n, ix, turns, dst, id);
    if Reached(net, queues, i, id) {
      net.SentMeansGone(slice, was, queues, i, net.index.peerOf[id]);
      assert RouteLinked(net.index, dst);
    }
    if Lookup(net.index, dst) == id && net.Gone(slice, i, was) {
      net.GoneMeansSent(slice, was, queues, i);
      assert RouteLinked(net.index, dst);
    }
  }

  // ----- Who can be reached at all

  ghost predicate CanBeReached(net: D.Net, id: PeerId) {
    exists slice, was, queues, i :: Call(net, slice, was, queues, i) && Reached(net, queues, i, id)
  }

  /** Channels that have seen no packet yet. */
  function NoneSent(net: D.Net): (queues: D.Queues)
    ensures |queues| == |net.index.entries| && forall h :: 0 <= h < |queues| ==> queues[h] == D.Pipe([], [])
  {
    seq(|net.index.entries|, i => D.Pipe([], []))
  }

  /** The channel of peer object `h` after a call; its route, if any, is its own address. */
  ghost function OutcomeAt(net: D.Net, slice: seq<D.Cell>, was: D.Queues, h: nat): D.Pipe
    requires net.Fits(was) && h < |was|
  {
    var a := net.index.entries[h].localIP;
    if a in net.index.routes && net.PeerAt(a) == h then D.Fed(was[h], net.MeantFor(slice, a), net.takes(h)) else was[h]
  }

  ghost function Outcome(net: D.Net, slice: seq<D.Cell>, was: D.Queues): D.Queues
    requires net.Fits(was)
  {
    seq(|was|, h requires 0 <= h < |was| => OutcomeAt(net, slice, was, h))
  }

  /** Every call has such an outcome. */
  lemma OutcomeIsDelivered(net: D.Net, slice: seq<D.Cell>, was: D.Queues)
    requires net.Fits(was)
    ensures net.Delivered(slice, |slice|, was, Outcome(net, slice, was))
  {
    assert slice[..|slice|] == slice;
    forall a | a in net.index.routes
      ensures net.Got(a, slice[..|slice|], was, Outcome(net, slice, was))
    {
      assert RouteLinked(net.index, a);
    }
  }

  /** One packet for `a`, with channels that are empty. */
  lemma FirstPacketFits(net: D.Net, a: uint32)
    requires Linked(net.index) && a in net.index.routes
    ensures net.Fitting([D.Held(a)], 0, NoneSent(net)) && net.NewTo(NoneSent(net), 0)
  {
    assert RouteLinked(net.index, a);
    assert [D.Held(a)][..0] == [];
    assert net.MeantFor([], a) == [];
  }

  /** A packet that fits, for an address that is no broadcast address, reaches the peer of its route. */
  lemma FittingReaches(net: D.Net, slice: seq<D.Cell>, was: D.Queues, i: nat, id: PeerId)
    requires net.Fits(was) && i < |slice| && net.NewTo(was, i) && net.Gone(slice, i, was)
    requires id in net.index.peerOf && net.index.peerOf[id] == net.PeerAt(slice[i].dst)
    ensures CanBeReached(net, id)
  {
    var queues := Outcome(net, slice, was);
    OutcomeIsDelivered(net, slice, was);
    net.GoneMeansSent(slice, was, queues, i);
    assert Call(net, slice, was, queues, i) && Reached(net, queues, i, id);
  }

  lemma FirstPacketReaches(net: D.Net, a: uint32, id: PeerId)
    requires Linked(net.index) && a in net.index.routes && !D.IsBroadcast(a, net.bcast)
    requires id in net.index.peerOf && net.index.peerOf[id] == net.PeerAt(a)
    ensures CanBeReached(net, id)
  {
    FirstPacketFits(net, a);
    FittingReaches(net, [D.Held(a)], NoneSent(net), 0, id);
  }

  lemma RouteOfKnown(n: Node, ix: Index, turns: seq<Turn>, id: PeerId, a: uint32)
    requires Ready(n) && Synced(n, ix) && RunOk(n, ix, turns) && id in RunNode(n, turns).known
    requires RunNode(n, turns).known[id].ip == IPv4(a)
    ensures var now := RunIndex(n, ix, turns);
            Linked(now) && a in now.routes && id in now.peerOf && now.peerOf[id] == now.routes[a]
  {
    RunStaysSynced(n, ix, turns);
    assert Routed(RunIndex(n, ix, turns), RunNode(n, turns).known, id);
  }

  /** Along every run: unicast can reach a known peer iff its address is valid and no broadcast address. */
  lemma ReachableExactlyWhen(n: Node, ix: Index, turns: seq<Turn>, net: D.Net, id: PeerId)
    requires Ready(n) && Synced(n, ix) && RunOk(n, ix, turns) && id != "" && id in RunNode(n, turns).known
    requires net.index == RunIndex(n, ix, turns)
    ensures var ip := RunNode(n, turns).known[id].ip;
            CanBeReached(net, id) <==> ip.IPv4? && ip.addr != net.bcast && ip.addr != 0xffff_ffff
  {
    var ip := RunNode(n, turns).known[id].ip;
    if ip.IPv4? && !D.IsBroadcast(ip.addr, net.bcast) {
      RouteOfKnown(n, ix, turns, id, ip.addr);
      FirstPacketReaches(net, ip.addr, id);
    } else if CanBeReached(net, id) {
      var slice, was, queues, i :| Call(net, slice, was, queues, i) && Reached(net, queues, i, id);
      UnicastIsAScan(n, ix, turns, net, slice, was, queues, i, id);
    }
  }
}
