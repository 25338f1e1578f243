/**
 * When a refresh of the tunnel leaves every known peer routable: exactly when the addresses
 * of the configuration are distinct and no address taken by a new or moved peer was held by a
 * tunnel peer before. Deleting old routes by address makes the second condition necessary.
 */
module Routing {
  import opened AddressPool
  import opened Bytes
  import opened Counting
  import opened Peers
  import opened TunnelIndex

  /** `order` visits every member of `s` once, as an iteration over a map does. */
  ghost predicate Visits(order: seq<PeerId>, s: set<PeerId>) {
    NoRepeats(order) && forall id :: id in order <==> id in s
  }

  lemma VisitsOneMore(order: seq<PeerId>, all: set<PeerId>, rest: set<PeerId>, id: PeerId)
    requires Visits(order, all - rest) && id in rest && rest <= all
    ensures Visits(order + [id], all - (rest - {id}))
  {
    assert forall p :: p in order + [id] <==> p in order || p == id;
  }

  /** A known peer with a valid address is in both indexes under that address. */
  ghost predicate Routed(ix: Index, conf: Registry, id: PeerId)
    requires id in conf
  {
    conf[id].ip.IPv4? ==>
      && id in ix.peerOf && ix.peerOf[id] < |ix.entries| && AddressOf(ix, id) == conf[id].ip.addr
      && conf[id].ip.addr in ix.routes && ix.routes[conf[id].ip.addr] == ix.peerOf[id]
  }

  ghost predicate InSync(ix: Index, conf: Registry) {
    && Bijection(ix) && ix.peerOf.Keys <= conf.Keys
    && forall id :: id in conf ==> Routed(ix, conf, id)
  }

  ghost predicate Distinct(conf: Registry) {
    forall i, j :: i in conf && j in conf && i != j && conf[i].ip.IPv4? ==> conf[i].ip != conf[j].ip
  }

  /** The peer enters the tunnel or changes its address with this refresh. */
  ghost predicate Takes(ix: Index, conf: Registry, id: PeerId)
    requires PeersLinked(ix)
  {
    id in conf && conf[id].ip.IPv4? && (id in ix.peerOf ==> AddressOf(ix, id) != conf[id].ip.addr)
  }

  ghost predicate NoTakeover(ix: Index, conf: Registry)
    requires PeersLinked(ix)
  {
    forall id, q :: Takes(ix, conf, id) && q in ix.peerOf ==> AddressOf(ix, q) != conf[id].ip.addr
  }

  // ----- Sufficiency: one operation at a time

  /** Peer `id` has the address `a`, or nobody else does. */
  ghost predicate Clear(ix: Index, id: PeerId, a: uint32)
    requires PeersLinked(ix)
  {
    || (id in ix.peerOf && AddressOf(ix, id) == a)
    || forall q :: q in ix.peerOf && q != id ==> AddressOf(ix, q) != a
  }

  lemma UpsertKeepsBijection(ix: Index, id: PeerId, a: uint32)
    requires Bijection(ix)
    requires Clear(ix, id, a)
    ensures Bijection(Upsert(ix, id, IPv4(a)))
    ensures var now := Upsert(ix, id, IPv4(a)); id in now.peerOf && AddressOf(now, id) == a
  {
    UpsertKeepsLinked(ix, id, IPv4(a));
    var now := Upsert(ix, id, IPv4(a));
    forall q | q in now.peerOf
      ensures Reachable(now, q)
    {
      if q != id {
        assert Reachable(ix, q);
        assert id in ix.peerOf ==> Reachable(ix, id);
      }
    }
  }

  lemma DropKeepsBijection(ix: Index, id: PeerId)
    requires Bijection(ix)
    ensures Bijection(Drop(ix, id))
  {
    DropKeepsLinked(ix, id);
    var now := Drop(ix, id);
    forall q | q in now.peerOf
      ensures Reachable(now, q)
    {
      assert Reachable(ix, q) && (id in ix.peerOf ==> Reachable(ix, id));
    }
  }

  /** The address of `id` after the peers of `done` were visited: its new one, or its old one. */
  ghost predicate Placed(ix: Index, now: Index, conf: Registry, done: seq<PeerId>, id: PeerId)
    requires PeersLinked(ix) && PeersLinked(now)
  {
    && (id in now.peerOf <==> id in ix.peerOf || (id in done && id in conf && conf[id].ip.IPv4?))
    && (id in now.peerOf ==>
          if id in done && id in conf && conf[id].ip.IPv4? then AddressOf(now, id) == conf[id].ip.addr
          else id in ix.peerOf && AddressOf(now, id) == AddressOf(ix, id))
  }

  lemma {:induction false} UpsertsSucceed(ix: Index, conf: Registry, order: seq<PeerId>)
    requires Bijection(ix) && Distinct(conf) && NoTakeover(ix, conf)
    requires NoRepeats(order) && forall id :: id in order ==> id in conf
    ensures Bijection(Upserts(ix, conf, order))
    ensures forall id :: Placed(ix, Upserts(ix, conf, order), conf, order, id)
  {
    if order != [] {
      var n := |order| - 1;
      var id, done := order[n], order[..n];
      UpsertsSucceed(ix, conf, done);
      var was := Upserts(ix, conf, done);
      assert forall q :: q in order <==> q in done || q == id;
      assert Placed(ix, was, conf, done, id);
      if conf[id].ip.IPv4? {
        AddressIsClear(ix, was, conf, done, id);
        UpsertKeepsBijection(was, id, conf[id].ip.addr);
      }
      forall q
        ensures Placed(ix, Upserts(ix, conf, order), conf, order, q)
      {
        assert Placed(ix, was, conf, done, q);
      }
    }
  }

  /** No other tunnel peer has the address that `id` is about to get. */
  lemma AddressIsClear(ix: Index, was: Index, conf: Registry, done: seq<PeerId>, id: PeerId)
    requires Bijection(ix) && Distinct(conf) && NoTakeover(ix, conf) && Bijection(was)
    requires id in conf && id !in done && conf[id].ip.IPv4? && forall q :: Placed(ix, was, conf, done, q)
    ensures Clear(was, id, conf[id].ip.addr)
  {
    assert Placed(ix, was, conf, done, id);
    if Takes(ix, conf, id) {
      forall q | q in was.peerOf && q != id
        ensures AddressOf(was, q) != conf[id].ip.addr
      {
        assert Placed(ix, was, conf, done, q);
      }
    }
  }

  lemma {:induction false} DropsSucceed(ix: Index, conf: Registry, order: seq<PeerId>)
    requires Bijection(ix)
    ensures var now := Drops(ix, conf, order);
            && Bijection(now)
            && (forall id :: id in now.peerOf <==> id in ix.peerOf && !(id in order && id !in conf))
            && (forall id :: id in now.peerOf ==> AddressOf(now, id) == AddressOf(ix, id))
  {
    if order != [] {
      var n := |order| - 1;
      DropsSucceed(ix, conf, order[..n]);
      DropKeepsBijection(Drops(ix, conf, order[..n]), order[n]);
      assert forall q :: q in order <==> q in order[..n] || q == order[n];
    }
  }

  lemma RefreshSucceeds(ix: Index, conf: Registry, order: seq<PeerId>, drops: seq<PeerId>)
    requires Bijection(ix) && Distinct(conf) && NoTakeover(ix, conf)
    requires Visits(order, conf.Keys) && Visits(drops, Upserts(ix, conf, order).peerOf.Keys)
    ensures InSync(Refreshed(ix, conf, order, drops), conf)
  {
    UpsertsSucceed(ix, conf, order);
    var mid := Upserts(ix, conf, order);
    DropsSucceed(mid, conf, drops);
    var now := Refreshed(ix, conf, order, drops);
    forall id | id in conf
      ensures Routed(now, conf, id)
    {
      assert Placed(ix, mid, conf, order, id);
      if conf[id].ip.IPv4? {
        assert Reachable(now, id);
      }
    }
  }

  // ----- Necessity

  lemma {:induction false} SomeOrder(s: set<PeerId>) returns (order: seq<PeerId>)
    ensures Visits(order, s)
  {
    if s == {} {
      order := [];
    } else {
      var x :| x in s;
      var rest := SomeOrder(s - {x});
      order := [x] + rest;
    }
  }

  /** In a synchronised result two known peers cannot share a valid address. */
  lemma SharedAddressFails(ix: Index, conf: Registry)
    requires InSync(ix, conf)
    ensures Distinct(conf)
  {
    forall i, j | i in conf && j in conf && i != j && conf[i].ip.IPv4?
      ensures conf[i].ip != conf[j].ip
    {
      assert Routed(ix, conf, i) && Routed(ix, conf, j);
    }
  }

  /** Once the route `a` is gone, only a peer configured with `a` brings it back. */
  lemma {:induction false} RouteStaysGone(ix: Index, conf: Registry, order: seq<PeerId>, a: uint32)
    requires a !in ix.routes && forall id :: id in order && id in conf ==> conf[id].ip != IPv4(a)
    ensures a !in Upserts(ix, conf, order).routes
  {
    if order != [] {
      RouteStaysGone(ix, conf, order[..|order| - 1], a);
    }
  }

  lemma {:induction false} DropsOnlyRemove(ix: Index, conf: Registry, order: seq<PeerId>, a: uint32)
    requires a !in ix.routes
    ensures a !in Drops(ix, conf, order).routes
  {
    if order != [] {
      DropsOnlyRemove(ix, conf, order[..|order| - 1], a);
    }
  }

  lemma {:induction false} UpsertsAppend(ix: Index, conf: Registry, first: seq<PeerId>, rest: seq<PeerId>)
    ensures Upserts(ix, conf, first + rest) == Upserts(Upserts(ix, conf, first), conf, rest)
  {
    if rest == [] {
      assert first + rest == first;
    } else {
      var n := |rest| - 1;
      assert (first + rest)[..|first + rest| - 1] == first + rest[..n];
      UpsertsAppend(ix, conf, first, rest[..n]);
    }
  }

  /** A visit of the known peers that starts with two given ones. */
  lemma OrderStarting(conf: Registry, p: PeerId, q: PeerId) returns (rest: seq<PeerId>)
    requires p in conf && q in conf && p != q
    ensures Visits([p, q] + rest, conf.Keys) && p !in rest && q !in rest
  {
    rest := SomeOrder(conf.Keys - {p, q});
    var order := [p, q] + rest;
    assert forall id :: id in order <==> id == p || id == q || id in rest;
  }

  /** If `id` is visited before the holder of its address moves away, its route is lost. */
  lemma MovedHolderTakesRoute(ix: Index, conf: Registry, id: PeerId, q: PeerId) returns (order: seq<PeerId>)
    requires Linked(ix) && Distinct(conf) && Takes(ix, conf, id)
    requires q in ix.peerOf && q in conf && conf[q].ip.IPv4? && AddressOf(ix, q) == conf[id].ip.addr
    ensures Visits(order, conf.Keys) && conf[id].ip.addr !in Upserts(ix, conf, order).routes
  {
    var rest := OrderStarting(conf, id, q);
    order := [id, q] + rest;
    var a := conf[id].ip.addr;
    var one := Upsert(ix, id, conf[id].ip);
    assert Upserts(ix, conf, [id]) == one by { assert [id][..0] == []; }
    assert Upserts(ix, conf, [id, q]) == Upsert(one, q, conf[q].ip) by { assert [id, q][..1] == [id]; }
    assert a !in Upsert(one, q, conf[q].ip).routes;
    RouteStaysGone(Upserts(ix, conf, [id, q]), conf, rest, a);
    UpsertsAppend(ix, conf, [id, q], rest);
  }

  /** A peer whose configured address is invalid, or the one it has, keeps its place. */
  lemma {:induction false} UpsertsSpare(ix: Index, conf: Registry, order: seq<PeerId>, q: PeerId)
    requires Linked(ix) && q in ix.peerOf && !Takes(ix, conf, q)
    ensures var now := Upserts(ix, conf, order);
            Linked(now) && q in now.peerOf && now.peerOf[q] == ix.peerOf[q] && AddressOf(now, q) == AddressOf(ix, q)
  {
    UpsertsKeepLinked(ix, conf, order);
    if order != [] {
      UpsertsSpare(ix, conf, order[..|order| - 1], q);
      UpsertsKeepLinked(ix, conf, order[..|order| - 1]);
    }
  }

  /** Closing a peer that nobody knows any more deletes the route of its address. */
  lemma {:induction false} DroppedTakesRoute(ix: Index, conf: Registry, order: seq<PeerId>, q: PeerId)
    requires Linked(ix) && NoRepeats(order) && q in order && q !in conf && q in ix.peerOf
    ensures AddressOf(ix, q) !in Drops(ix, conf, order).routes
  {
    var n := |order| - 1;
    DropsKeepLinked(ix, conf, order[..n]);
    if order[n] == q {
      DropsSpare(ix, conf, order[..n], q);
    } else {
      DroppedTakesRoute(ix, conf, order[..n], q);
    }
  }

  lemma {:induction false} DropsSpare(ix: Index, conf: Registry, order: seq<PeerId>, q: PeerId)
    requires Linked(ix) && q in ix.peerOf && (q !in order || q in conf)
    ensures var now := Drops(ix, conf, order);
            Linked(now) && q in now.peerOf && now.peerOf[q] == ix.peerOf[q] && AddressOf(now, q) == AddressOf(ix, q)
  {
    DropsKeepLinked(ix, conf, order);
    if order != [] {
      DropsSpare(ix, conf, order[..|order| - 1], q);
    }
  }

  /** Every way of iterating over the maps leaves the tunnel in sync with the configuration. */
  ghost predicate AlwaysInSync(ix: Index, conf: Registry) {
    forall order, drops ::
      Visits(order, conf.Keys) && Visits(drops, Upserts(ix, conf, order).peerOf.Keys)
      ==> InSync(Refreshed(ix, conf, order, drops), conf)
  }

  lemma TakeoverFails(ix: Index, conf: Registry, id: PeerId, q: PeerId) returns (order: seq<PeerId>, drops: seq<PeerId>)
    requires Linked(ix) && Distinct(conf)
    requires Takes(ix, conf, id) && q in ix.peerOf && AddressOf(ix, q) == conf[id].ip.addr
    ensures Visits(order, conf.Keys) && Visits(drops, Upserts(ix, conf, order).peerOf.Keys)
    ensures !InSync(Refreshed(ix, conf, order, drops), conf)
  {
    var a := conf[id].ip.addr;
    if q in conf && conf[q].ip.IPv4? {
      order := MovedHolderTakesRoute(ix, conf, id, q);
    } else {
      order := SomeOrder(conf.Keys);
      UpsertsSpare(ix, conf, order, q);
    }
    var mid := Upserts(ix, conf, order);
    UpsertsKeepLinked(ix, conf, order);
    drops := SomeOrder(mid.peerOf.Keys);
    var now := Refreshed(ix, conf, order, drops);
    if q in conf && conf[q].ip.IPv4? {
      DropsOnlyRemove(mid, conf, drops, a);
      assert !Routed(now, conf, id);
    } else if q !in conf {
      DroppedTakesRoute(mid, conf, drops, q);
      assert !Routed(now, conf, id);
    } else {
      DropsSpare(mid, conf, drops, q);
      HolderStays(now, conf, id, q);
    }
  }

  /** A peer left behind with an invalid new address still claims the one that `id` takes. */
  lemma HolderStays(now: Index, conf: Registry, id: PeerId, q: PeerId)
    requires Linked(now) && id in conf && conf[id].ip.IPv4? && q != id
    requires q in now.peerOf && AddressOf(now, q) == conf[id].ip.addr
    ensures !InSync(now, conf)
  {
    if Routed(now, conf, id) {
      assert !Reachable(now, q);
    }
  }

  /**
   * The exact condition. From indexes in bijection, a refresh leaves bijection and every known
   * peer with a valid address routable, for all iteration orders, if and only if the
   * addresses are distinct and no new or moved peer takes an address a tunnel peer held.
   */
  lemma RefreshIsRightExactlyWhen(ix: Index, conf: Registry)
    requires Bijection(ix)
    ensures AlwaysInSync(ix, conf) <==> Distinct(conf) && NoTakeover(ix, conf)
  {
    if Distinct(conf) && NoTakeover(ix, conf) {
      forall order, drops | Visits(order, conf.Keys) && Visits(drops, Upserts(ix, conf, order).peerOf.Keys)
        ensures InSync(Refreshed(ix, conf, order, drops), conf)
      {
        RefreshSucceeds(ix, conf, order, drops);
      }
    }
    if AlwaysInSync(ix, conf) {
      var order := SomeOrder(conf.Keys);
      var drops := SomeOrder(Upserts(ix, conf, order).peerOf.Keys);
      SharedAddressFails(Refreshed(ix, conf, order, drops), conf);
      if !NoTakeover(ix, conf) {
        var id, q :| Takes(ix, conf, id) && q in ix.peerOf && AddressOf(ix, q) == conf[id].ip.addr;
        var o, d := TakeoverFails(ix, conf, id, q);
        assert false;
      }
    }
  }
}
