/**
 * Refreshes from any state the tunnel can be in, where routes may have been lost before: the
 * exact condition for a refresh to bring the indexes in step with the configuration, and why a
 * peer that lost its route does not get it back while it keeps its address.
 */
module LostRoutes {
  import opened AddressPool
  import opened Bytes
  import opened Counting
  import opened Peers
  import opened Routing
  import opened TunnelIndex

  /** The peer is in the tunnel and stays there, at the address it has. */
  ghost predicate Stays(ix: Index, conf: Registry, id: PeerId)
    requires PeersLinked(ix)
  {
    id in ix.peerOf && id in conf && !Takes(ix, conf, id)
  }

  /** The peer is in the tunnel after a refresh ... */
  ghost predicate Ends(ix: Index, conf: Registry, id: PeerId)
    requires PeersLinked(ix)
  {
    Stays(ix, conf, id) || Takes(ix, conf, id)
  }

  /** ... at this address. */
  ghost function EndAddress(ix: Index, conf: Registry, id: PeerId): uint32
    requires PeersLinked(ix) && Ends(ix, conf, id)
  {
    if Takes(ix, conf, id) then conf[id].ip.addr else AddressOf(ix, id)
  }

  /** Nobody else in the tunnel has the address that a peer ends at. */
  ghost predicate Undisputed(ix: Index, conf: Registry)
    requires PeersLinked(ix)
  {
    forall id, q :: Ends(ix, conf, id) && q in ix.peerOf && q != id ==> AddressOf(ix, q) != EndAddress(ix, conf, id)
  }

  /** Whoever stays has its route. */
  ghost predicate NoneLost(ix: Index, conf: Registry)
    requires PeersLinked(ix)
  {
    forall id :: Stays(ix, conf, id) ==> Reachable(ix, id)
  }

  // ----- A lost route stays lost

  /** No visit of a peer gives a route to another peer, nor to one that is at its address already. */
  lemma {:induction false} UpsertsFindNothing(ix: Index, conf: Registry, order: seq<PeerId>, id: PeerId)
    requires Linked(ix) && id in ix.peerOf && !Takes(ix, conf, id) && !Reachable(ix, id)
    ensures var now := Upserts(ix, conf, order);
            && Linked(now) && id in now.peerOf && now.peerOf[id] == ix.peerOf[id]
            && AddressOf(now, id) == AddressOf(ix, id) && !Reachable(now, id)
  {
    UpsertsKeepLinked(ix, conf, order);
    if order != [] {
      var before := order[..|order| - 1];
      UpsertsFindNothing(ix, conf, before, id);
      UpsertsKeepLinked(ix, conf, before);
    }
  }

  lemma {:induction false} DropsFindNothing(ix: Index, conf: Registry, order: seq<PeerId>, id: PeerId)
    requires Linked(ix) && id in ix.peerOf && id in conf && !Reachable(ix, id)
    ensures var now := Drops(ix, conf, order);
            && Linked(now) && id in now.peerOf && AddressOf(now, id) == AddressOf(ix, id) && !Reachable(now, id)
  {
    DropsKeepLinked(ix, conf, order);
    if order != [] {
      DropsFindNothing(ix, conf, order[..|order| - 1], id);
    }
  }

  lemma RefreshFindsNothing(ix: Index, conf: Registry, order: seq<PeerId>, drops: seq<PeerId>, id: PeerId)
    requires Linked(ix) && Stays(ix, conf, id) && !Reachable(ix, id)
    ensures var now := Refreshed(ix, conf, order, drops);
            && Linked(now) && id in now.peerOf && AddressOf(now, id) == AddressOf(ix, id) && !Reachable(now, id)
  {
    UpsertsFindNothing(ix, conf, order, id);
    DropsFindNothing(Upserts(ix, conf, order), conf, drops, id);
  }

  /** One refresh: the configuration it sees and its iteration orders. */
  datatype Refresh = Refresh(conf: Registry, order: seq<PeerId>, drops: seq<PeerId>)

  ghost function AfterAll(ix: Index, refreshes: seq<Refresh>): Index {
    if refreshes == [] then ix
    else
      var r := refreshes[|refreshes| - 1];
      Refreshed(AfterAll(ix, refreshes[..|refreshes| - 1]), r.conf, r.order, r.drops)
  }

  /** The configuration has the peer, and no valid address for it but `a`. */
  ghost predicate StillAt(conf: Registry, id: PeerId, a: uint32) {
    id in conf && (conf[id].ip.IPv4? ==> conf[id].ip.addr == a)
  }

  /**
   * A peer of the tunnel that lost its route stays unroutable through every sequence of
   * refreshes, whatever else changes, as long as it stays known at its address.
   */
  lemma {:induction false} LostStaysLost(ix: Index, refreshes: seq<Refresh>, id: PeerId)
    requires Linked(ix) && id in ix.peerOf && !Reachable(ix, id)
    requires forall k :: 0 <= k < |refreshes| ==> StillAt(refreshes[k].conf, id, AddressOf(ix, id))
    ensures var now := AfterAll(ix, refreshes);
            && Linked(now) && id in now.peerOf && AddressOf(now, id) == AddressOf(ix, id) && !Reachable(now, id)
  {
    if refreshes != [] {
      var n := |refreshes| - 1;
      LostStaysLost(ix, refreshes[..n], id);
      var r := refreshes[n];
      assert StillAt(r.conf, id, AddressOf(ix, id));
      RefreshFindsNothing(AfterAll(ix, refreshes[..n]), r.conf, r.order, r.drops, id);
    }
  }

  // ----- Sufficiency, from any linked indexes

  /** The peer is at the address it ends at. */
  ghost predicate Arrived(ix: Index, conf: Registry, done: seq<PeerId>, id: PeerId)
    requires PeersLinked(ix)
  {
    Stays(ix, conf, id) || (id in done && Takes(ix, conf, id))
  }

  /** Everybody is where it should be, and those who have arrived have their routes. */
  ghost predicate OnTheWay(ix: Index, was: Index, conf: Registry, done: seq<PeerId>) {
    && Linked(ix) && Linked(was)
    && (forall q :: Placed(ix, was, conf, done, q))
    && (forall q :: Arrived(ix, conf, done, q) ==> q in was.peerOf && Reachable(was, q))
  }

  lemma PlacedOneMore(ix: Index, was: Index, conf: Registry, done: seq<PeerId>, id: PeerId, q: PeerId)
    requires Linked(ix) && Linked(was) && id in conf && id !in done
    requires Placed(ix, was, conf, done, id) && Placed(ix, was, conf, done, q)
    ensures PeersLinked(Upsert(was, id, conf[id].ip)) && Placed(ix, Upsert(was, id, conf[id].ip), conf, done + [id], q)
  {
    UpsertKeepsLinked(was, id, conf[id].ip);
    assert forall p :: p in done + [id] <==> p in done || p == id;
  }

  /** The visit of `id` does not touch the route of another peer that has arrived. */
  lemma ArrivedKeepRoutes(ix: Index, was: Index, conf: Registry, done: seq<PeerId>, id: PeerId, q: PeerId)
    requires OnTheWay(ix, was, conf, done) && Distinct(conf) && Undisputed(ix, conf)
    requires id in conf && id !in done && q != id && Arrived(ix, conf, done, q)
    ensures var now := Upsert(was, id, conf[id].ip); Linked(now) && q in now.peerOf && Reachable(now, q)
  {
    UpsertKeepsLinked(was, id, conf[id].ip);
    assert Placed(ix, was, conf, done, q) && Placed(ix, was, conf, done, id);
    assert AddressOf(was, q) == EndAddress(ix, conf, q);
    if Takes(ix, conf, id) {
      assert EndAddress(ix, conf, q) != EndAddress(ix, conf, id) by {
        if Stays(ix, conf, q) {
          assert Ends(ix, conf, id) && q in ix.peerOf;
        } else {
          assert conf[q].ip != conf[id].ip;
        }
      }
      assert id in ix.peerOf ==> AddressOf(was, id) != AddressOf(was, q);
    }
  }

  /** And it gives `id` its own route. */
  lemma ArrivesWithRoute(ix: Index, was: Index, conf: Registry, done: seq<PeerId>, id: PeerId)
    requires OnTheWay(ix, was, conf, done) && id in conf && id !in done && Takes(ix, conf, id)
    ensures var now := Upsert(was, id, conf[id].ip); Linked(now) && id in now.peerOf && Reachable(now, id)
  {
    UpsertKeepsLinked(was, id, conf[id].ip);
    assert Placed(ix, was, conf, done, id);
  }

  lemma OneMoreOnTheWay(ix: Index, was: Index, conf: Registry, done: seq<PeerId>, id: PeerId)
    requires OnTheWay(ix, was, conf, done) && Distinct(conf) && Undisputed(ix, conf) && id in conf && id !in done
    ensures OnTheWay(ix, Upsert(was, id, conf[id].ip), conf, done + [id])
  {
    var now := Upsert(was, id, conf[id].ip);
    UpsertKeepsLinked(was, id, conf[id].ip);
    forall q
      ensures Placed(ix, now, conf, done + [id], q)
    {
      assert Placed(ix, was, conf, done, id) && Placed(ix, was, conf, done, q);
      PlacedOneMore(ix, was, conf, done, id, q);
    }
    forall q | Arrived(ix, conf, done + [id], q)
      ensures q in now.peerOf && Reachable(now, q)
    {
      if q != id {
        ArrivedKeepRoutes(ix, was, conf, done, id, q);
      } else if Takes(ix, conf, id) {
        ArrivesWithRoute(ix, was, conf, done, id);
      } else {
        assert Arrived(ix, conf, done, id) && Placed(ix, was, conf, done, id);
      }
    }
  }

  lemma {:induction false} AllOnTheWay(ix: Index, conf: Registry, order: seq<PeerId>)
    requires Linked(ix) && Distinct(conf) && Undisputed(ix, conf) && NoneLost(ix, conf)
    requires NoRepeats(order) && forall id :: id in order ==> id in conf
    ensures OnTheWay(ix, Upserts(ix, conf, order), conf, order)
  {
    if order != [] {
      var n := |order| - 1;
      AllOnTheWay(ix, conf, order[..n]);
      assert order == order[..n] + [order[n]];
      OneMoreOnTheWay(ix, Upserts(ix, conf, order[..n]), conf, order[..n], order[n]);
    }
  }

  /** A peer that stays known keeps its route while others are closed, if none of them has its address. */
  lemma {:induction false} DropsKeepRoute(ix: Index, conf: Registry, order: seq<PeerId>, id: PeerId)
    requires Linked(ix) && id in conf && id in ix.peerOf && Reachable(ix, id)
    requires forall q :: q in ix.peerOf && q !in conf ==> AddressOf(ix, q) != AddressOf(ix, id)
    ensures var now := Drops(ix, conf, order);
            && Linked(now) && id in now.peerOf && now.peerOf[id] == ix.peerOf[id] && Reachable(now, id)
            && now.entries == ix.entries
            && (forall q :: q in now.peerOf ==> q in ix.peerOf && now.peerOf[q] == ix.peerOf[q])
  {
    DropsKeepLinked(ix, conf, order);
    if order != [] {
      DropsKeepRoute(ix, conf, order[..|order| - 1], id);
    }
  }

  /** Which peers are left after the second loop. */
  lemma {:induction false} DropsLeave(ix: Index, conf: Registry, order: seq<PeerId>, q: PeerId)
    requires Linked(ix) && q in Drops(ix, conf, order).peerOf
    ensures q in ix.peerOf && (q in order ==> q in conf)
  {
    if order != [] {
      DropsKeepLinked(ix, conf, order[..|order| - 1]);
      DropsLeave(ix, conf, order[..|order| - 1], q);
      assert q in order ==> q in order[..|order| - 1] || q == order[|order| - 1];
    }
  }

  lemma RefreshArrives(ix: Index, conf: Registry, order: seq<PeerId>, drops: seq<PeerId>, id: PeerId)
    requires Linked(ix) && Distinct(conf) && Undisputed(ix, conf) && NoneLost(ix, conf)
    requires Visits(order, conf.Keys) && Ends(ix, conf, id)
    ensures var now := Refreshed(ix, conf, order, drops);
            Linked(now) && id in now.peerOf && Reachable(now, id) && AddressOf(now, id) == EndAddress(ix, conf, id)
  {
    var mid := Upserts(ix, conf, order);
    AllOnTheWay(ix, conf, order);
    assert Arrived(ix, conf, order, id) && Placed(ix, mid, conf, order, id);
    forall q | q in mid.peerOf && q !in conf
      ensures AddressOf(mid, q) != AddressOf(mid, id)
    {
      assert Placed(ix, mid, conf, order, q);
    }
    DropsKeepRoute(mid, conf, drops, id);
  }

  lemma RefreshSyncs(ix: Index, conf: Registry, order: seq<PeerId>, drops: seq<PeerId>)
    requires Linked(ix) && Distinct(conf) && Undisputed(ix, conf) && NoneLost(ix, conf)
    requires Visits(order, conf.Keys) && Visits(drops, Upserts(ix, conf, order).peerOf.Keys)
    ensures InSync(Refreshed(ix, conf, order, drops), conf)
  {
    var now, mid := Refreshed(ix, conf, order, drops), Upserts(ix, conf, order);
    RefreshKeepsLinked(ix, conf, order, drops);
    AllOnTheWay(ix, conf, order);
    forall q | q in now.peerOf
      ensures q in conf && Reachable(now, q)
    {
      DropsLeave(mid, conf, drops, q);
      assert Placed(ix, mid, conf, order, q);
      RefreshArrives(ix, conf, order, drops, q);
    }
    forall id | id in conf
      ensures Routed(now, conf, id)
    {
      if conf[id].ip.IPv4? {
        RefreshArrives(ix, conf, order, drops, id);
      }
    }
  }

  // ----- Necessity

  /** Once a holder of `a` has moved away its route is gone, if nobody moves to `a`. */
  lemma {:induction false} LeavingTakesRoute(ix: Index, conf: Registry, order: seq<PeerId>, q: PeerId)
    requires Linked(ix) && NoRepeats(order) && q in order && q in ix.peerOf && Takes(ix, conf, q)
    requires forall r :: Takes(ix, conf, r) ==> conf[r].ip.addr != AddressOf(ix, q)
    ensures AddressOf(ix, q) !in Upserts(ix, conf, order).routes
  {
    var n := |order| - 1;
    var was := Upserts(ix, conf, order[..n]);
    UpsertsKeepLinked(ix, conf, order[..n]);
    UpsertsOnlyMoveVisited(ix, conf, order[..n], order[n]);
    if order[n] == q {
      assert order[..n] + [q] == order;
    } else {
      LeavingTakesRoute(ix, conf, order[..n], q);
    }
  }

  /** A peer that was not visited yet is where it was. */
  lemma {:induction false} UpsertsOnlyMoveVisited(ix: Index, conf: Registry, order: seq<PeerId>, id: PeerId)
    requires Linked(ix) && id !in order
    ensures var now := Upserts(ix, conf, order);
            && Linked(now) && (id in now.peerOf <==> id in ix.peerOf)
            && (id in ix.peerOf ==> AddressOf(now, id) == AddressOf(ix, id))
  {
    UpsertsKeepLinked(ix, conf, order);
    if order != [] {
      UpsertsKeepLinked(ix, conf, order[..|order| - 1]);
      UpsertsOnlyMoveVisited(ix, conf, order[..|order| - 1], id);
    }
  }

  lemma SomeRefresh(ix: Index, conf: Registry) returns (order: seq<PeerId>, drops: seq<PeerId>)
    ensures Visits(order, conf.Keys) && Visits(drops, Upserts(ix, conf, order).peerOf.Keys)
  {
    order := SomeOrder(conf.Keys);
    drops := SomeOrder(Upserts(ix, conf, order).peerOf.Keys);
  }

  /** Whoever stays is at its address after the refresh, with or without its route. */
  lemma StayerStays(ix: Index, conf: Registry, order: seq<PeerId>, drops: seq<PeerId>, id: PeerId)
    requires Linked(ix) && Stays(ix, conf, id)
    ensures var now := Refreshed(ix, conf, order, drops);
            && Linked(now) && id in now.peerOf && now.peerOf[id] == ix.peerOf[id]
            && AddressOf(now, id) == AddressOf(ix, id)
  {
    UpsertsSpare(ix, conf, order, id);
    DropsSpare(Upserts(ix, conf, order), conf, drops, id);
  }

  /** If `q` leaves the address that `id` stays at, and nobody moves there, the route is gone. */
  lemma LeaverTakesRoute(ix: Index, conf: Registry, order: seq<PeerId>, drops: seq<PeerId>, q: PeerId)
    requires Linked(ix) && q in ix.peerOf && !Stays(ix, conf, q)
    requires Visits(order, conf.Keys) && Visits(drops, Upserts(ix, conf, order).peerOf.Keys)
    requires forall r :: Takes(ix, conf, r) ==> conf[r].ip.addr != AddressOf(ix, q)
    ensures AddressOf(ix, q) !in Refreshed(ix, conf, order, drops).routes
  {
    var mid := Upserts(ix, conf, order);
    UpsertsKeepLinked(ix, conf, order);
    if q in conf {
      LeavingTakesRoute(ix, conf, order, q);
      DropsOnlyRemove(mid, conf, drops, AddressOf(ix, q));
    } else {
      UpsertsSpare(ix, conf, order, q);
      DroppedTakesRoute(mid, conf, drops, q);
    }
  }

  lemma SharedFails(ix: Index, conf: Registry, order: seq<PeerId>, drops: seq<PeerId>, id: PeerId, q: PeerId)
    requires Linked(ix) && Stays(ix, conf, id) && q in ix.peerOf && q != id && AddressOf(ix, q) == AddressOf(ix, id)
    requires Visits(order, conf.Keys) && Visits(drops, Upserts(ix, conf, order).peerOf.Keys)
    requires forall r :: Takes(ix, conf, r) ==> conf[r].ip.addr != AddressOf(ix, q)
    ensures !InSync(Refreshed(ix, conf, order, drops), conf)
  {
    var now := Refreshed(ix, conf, order, drops);
    StayerStays(ix, conf, order, drops, id);
    if Stays(ix, conf, q) {
      StayerStays(ix, conf, order, drops, q);
      assert !Reachable(now, id) || !Reachable(now, q);
    } else {
      LeaverTakesRoute(ix, conf, order, drops, q);
      assert !Reachable(now, id);
    }
  }

  /** A disputed address spoils some refresh. */
  lemma DisputeFails(ix: Index, conf: Registry, id: PeerId, q: PeerId)
    returns (order: seq<PeerId>, drops: seq<PeerId>)
    requires Linked(ix) && Distinct(conf) && Ends(ix, conf, id)
    requires q in ix.peerOf && q != id && AddressOf(ix, q) == EndAddress(ix, conf, id)
    ensures Visits(order, conf.Keys) && Visits(drops, Upserts(ix, conf, order).peerOf.Keys)
    ensures !InSync(Refreshed(ix, conf, order, drops), conf)
  {
    if Takes(ix, conf, id) {
      order, drops := TakeoverFails(ix, conf, id, q);
    } else if r :| Takes(ix, conf, r) && conf[r].ip.addr == AddressOf(ix, id) {
      order, drops := TakeoverFails(ix, conf, r, id);
    } else {
      order, drops := SomeRefresh(ix, conf);
      SharedFails(ix, conf, order, drops, id, q);
    }
  }

  /**
   * The exact condition from any state the tunnel can be in: a refresh brings the indexes in
   * step with the configuration, for all iteration orders, if and only if the configured
   * addresses are distinct, nobody else in the tunnel has the address a peer ends at, and
   * whoever stays has not lost its route.
   */
  lemma SyncExactlyWhen(ix: Index, conf: Registry)
    requires Linked(ix)
    ensures AlwaysInSync(ix, conf) <==> Distinct(conf) && Undisputed(ix, conf) && NoneLost(ix, conf)
  {
    if Distinct(conf) && Undisputed(ix, conf) && NoneLost(ix, conf) {
      forall order, drops | Visits(order, conf.Keys) && Visits(drops, Upserts(ix, conf, order).peerOf.Keys)
        ensures InSync(Refreshed(ix, conf, order, drops), conf)
      {
        RefreshSyncs(ix, conf, order, drops);
      }
    }
    if AlwaysInSync(ix, conf) {
      var order, drops := SomeRefresh(ix, conf);
      SharedAddressFails(Refreshed(ix, conf, order, drops), conf);
      forall id | Stays(ix, conf, id)
        ensures Reachable(ix, id)
      {
        if !Reachable(ix, id) {
          RefreshFindsNothing(ix, conf, order, drops, id);
        }
      }
      forall id, q | Ends(ix, conf, id) && q in ix.peerOf && q != id
        ensures AddressOf(ix, q) != EndAddress(ix, conf, id)
      {
        if AddressOf(ix, q) == EndAddress(ix, conf, id) {
          var o, d := DisputeFails(ix, conf, id, q);
        }
      }
    }
  }
}
