/**
 * The tunnel's mutable indexes and the critical sections that write them, in
 * service/tunnel.go. Peer objects are positions in `vpnPeers`; `closed` records the objects
 * whose channels have been closed.
 */
module TunnelService {
  import opened AddressPool
  import opened Bytes
  import opened Peers
  import opened Routing
  import opened TunnelIndex

  /** Everything in `some` is in `all`, as the same object. */
  ghost predicate Keeps(some: map<PeerId, nat>, all: map<PeerId, nat>) {
    forall id :: id in some ==> id in all && all[id] == some[id]
  }

  /** The objects of the peers that were in `before` and are not in `now`. */
  ghost function Left(before: map<PeerId, nat>, now: map<PeerId, nat>): set<nat> {
    set id | id in before && id !in now :: before[id]
  }

  lemma OneMoreLeft(before: map<PeerId, nat>, now: map<PeerId, nat>, id: PeerId)
    requires Keeps(now, before) && id in now
    ensures Left(before, now - {id}) == Left(before, now) + {now[id]}
  {
    forall h | h in Left(before, now)
      ensures h in Left(before, now - {id})
    {
      var q :| q in before && q !in now && before[q] == h;
      assert q !in now - {id};
    }
    assert before[id] in Left(before, now - {id});
  }

  /** Peers that were added in between stay, so whoever left was there before. */
  lemma LeftSinceBefore(before: map<PeerId, nat>, between: map<PeerId, nat>, now: map<PeerId, nat>, conf: Registry)
    requires Keeps(before, between) && forall id :: id in between ==> id in before || id in conf
    requires forall id :: id in conf && id in between ==> id in now
    ensures Left(between, now) == Left(before, now)
  {
    forall h | h in Left(between, now)
      ensures h in Left(before, now)
    {
      var id :| id in between && id !in now && between[id] == h;
      assert id in before && before[id] == h;
    }
    forall h | h in Left(before, now)
      ensures h in Left(between, now)
    {
      var id :| id in before && id !in now && before[id] == h;
      assert id in between && between[id] == h;
    }
  }

  class Tunnel {
    var peerIDToPeer: map<PeerId, nat>
    var netIPToPeer: map<uint32, nat>
    var vpnPeers: seq<Entry>
    var closed: set<nat>
    var isClosed: bool

    function State(): Index
      reads this
    {
      Index(peerIDToPeer, netIPToPeer, vpnPeers)
    }

    /** Routes lead to live peers, and no live peer has closed channels. */
    ghost predicate Valid()
      reads this
    {
      && Linked(State())
      && (forall id :: id in peerIDToPeer ==> peerIDToPeer[id] !in closed)
      && (forall h :: h in closed ==> h < |vpnPeers|)
    }

    constructor ()
      ensures Valid() && State() == EMPTY && !isClosed
    {
      peerIDToPeer, netIPToPeer, vpnPeers, closed, isClosed := map[], map[], [], {}, false;
    }

    /** One known peer of the configuration, with its address. */
    method RefreshPeer(id: PeerId, ip: IPText)
      requires Valid()
      modifies this
      ensures Valid() && State() == Upsert(old(State()), id, ip)
      ensures closed == old(closed) && isClosed == old(isClosed)
    {
      UpsertKeepsLinked(State(), id, ip);
      if !ip.IPv4? {
        return;
      }
      if id in peerIDToPeer {
        var prevPeer := peerIDToPeer[id];
        var oldLocalIP := vpnPeers[prevPeer].localIP;
        if oldLocalIP == ip.addr {
          return;
        }
        netIPToPeer := netIPToPeer - {oldLocalIP};
        vpnPeers := vpnPeers[prevPeer := Entry(vpnPeers[prevPeer].peerID, ip.addr)];
        netIPToPeer := netIPToPeer[ip.addr := prevPeer];
        return;
      }
      var vpnPeer := |vpnPeers|;
      vpnPeers := vpnPeers + [Entry(id, ip.addr)];
      peerIDToPeer := peerIDToPeer[id := vpnPeer];
      netIPToPeer := netIPToPeer[ip.addr := vpnPeer];
    }

    /** VpnPeer.Close and the removal from both indexes; the channels were open before. */
    method ClosePeer(id: PeerId)
      requires Valid() && id in peerIDToPeer
      modifies this
      ensures Valid() && State() == Drop(old(State()), id)
      ensures old(peerIDToPeer)[id] !in old(closed) && closed == old(closed) + {old(peerIDToPeer)[id]}
      ensures isClosed == old(isClosed)
    {
      DropKeepsLinked(State(), id);
      var vpnPeer := peerIDToPeer[id];
      var localIP := vpnPeers[vpnPeer].localIP;
      closed := closed + {vpnPeer};
      peerIDToPeer := peerIDToPeer - {id};
      netIPToPeer := netIPToPeer - {localIP};
    }

    /**
     * Both loops, in whatever order the maps are iterated: the indexes become those of the
     * refresh, and the channels closed are exactly those of the peers that left them, each
     * for the first time.
     */
    method RefreshPeersList(conf: Registry) returns (ghost order: seq<PeerId>, ghost drops: seq<PeerId>)
      requires Valid()
      modifies this
      ensures Valid() && isClosed == old(isClosed)
      ensures Visits(order, conf.Keys) && Visits(drops, Upserts(old(State()), conf, order).peerOf.Keys)
      ensures State() == Refreshed(old(State()), conf, order, drops)
      ensures closed == old(closed) + Left(old(peerIDToPeer), peerIDToPeer)
      ensures old(closed) !! Left(old(peerIDToPeer), peerIDToPeer)
    {
      order := UpsertKnown(conf);
      ghost var between := peerIDToPeer;
      drops := CloseUnknown(conf);
      LeftSinceBefore(old(peerIDToPeer), between, peerIDToPeer, conf);
    }

    method UpsertKnown(conf: Registry) returns (ghost order: seq<PeerId>)
      requires Valid()
      modifies this
      ensures Valid() && isClosed == old(isClosed) && closed == old(closed)
      ensures Visits(order, conf.Keys) && State() == Upserts(old(State()), conf, order)
      ensures Keeps(old(peerIDToPeer), peerIDToPeer)
      ensures forall id :: id in peerIDToPeer ==> id in old(peerIDToPeer) || id in conf
    {
      order := [];
      var rest := conf.Keys;
      while rest != {}
        invariant Valid() && isClosed == old(isClosed) && closed == old(closed)
        invariant rest <= conf.Keys && Visits(order, conf.Keys - rest)
        invariant State() == Upserts(old(State()), conf, order)
        invariant Keeps(old(peerIDToPeer), peerIDToPeer)
        invariant forall id :: id in peerIDToPeer ==> id in old(peerIDToPeer) || id in conf
        decreases rest
      {
        var id :| id in rest;
        RefreshPeer(id, conf[id].ip);
        VisitsOneMore(order, conf.Keys, rest, id);
        assert (order + [id])[..|order|] == order;
        rest, order := rest - {id}, order + [id];
      }
    }

    method CloseUnknown(conf: Registry) returns (ghost drops: seq<PeerId>)
      requires Valid()
      modifies this
      ensures Valid() && isClosed == old(isClosed)
      ensures Visits(drops, old(peerIDToPeer).Keys) && State() == Drops(old(State()), conf, drops)
      ensures closed == old(closed) + Left(old(peerIDToPeer), peerIDToPeer)
      ensures Keeps(peerIDToPeer, old(peerIDToPeer))
      ensures forall id :: id in conf && id in old(peerIDToPeer) ==> id in peerIDToPeer
    {
      drops := [];
      var rest := peerIDToPeer.Keys;
      while rest != {}
        invariant Valid() && isClosed == old(isClosed)
        invariant rest <= old(peerIDToPeer).Keys && rest <= peerIDToPeer.Keys
        invariant Visits(drops, old(peerIDToPeer).Keys - rest)
        invariant State() == Drops(old(State()), conf, drops)
        invariant Keeps(peerIDToPeer, old(peerIDToPeer))
        invariant forall id :: id in conf && id in old(peerIDToPeer) ==> id in peerIDToPeer
        invariant closed == old(closed) + Left(old(peerIDToPeer), peerIDToPeer)
        decreases rest
      {
        var id :| id in rest;
        if id !in conf {
          OneMoreLeft(old(peerIDToPeer), peerIDToPeer, id);
          ClosePeer(id);
        }
        VisitsOneMore(drops, old(peerIDToPeer).Keys, rest, id);
        assert (drops + [id])[..|drops|] == drops;
        rest, drops := rest - {id}, drops + [id];
      }
    }

    /** Shutting down closes every live peer once and empties both indexes. */
    method Close()
      requires Valid()
      modifies this
      ensures Valid() && isClosed
      ensures peerIDToPeer == map[] && netIPToPeer == map[]
      ensures closed == old(closed) + old(peerIDToPeer).Values && old(closed) !! old(peerIDToPeer).Values
    {
      isClosed := true;
      while peerIDToPeer.Keys != {}
        invariant Valid() && isClosed
        invariant Keeps(peerIDToPeer, old(peerIDToPeer))
        invariant closed == old(closed) + Left(old(peerIDToPeer), peerIDToPeer)
        decreases peerIDToPeer.Keys
      {
        var id :| id in peerIDToPeer.Keys;
        OneMoreLeft(old(peerIDToPeer), peerIDToPeer, id);
        ClosePeer(id);
      }
      assert peerIDToPeer == map[];
      assert forall a :: a in netIPToPeer ==> RouteLinked(State(), a);
      assert netIPToPeer == map[];
    }
  }
}
