/**
 * The two indexes of service/tunnel.go: peer id to peer, and virtual address to peer. A peer
 * object is a position in `entries`, which grows with every object ever made; what a refresh
 * or a close does to the indexes is written as functions, one per branch of the code.
 */
module TunnelIndex {
  import opened AddressPool
  import opened Bytes
  import opened Peers

  datatype Entry = Entry(peerID: PeerId, localIP: uint32)

  datatype Index = Index(peerOf: map<PeerId, nat>, routes: map<uint32, nat>, entries: seq<Entry>)

  const EMPTY := Index(map[], map[], [])

  // ----- Invariants

  ghost predicate PeersLinked(ix: Index) {
    forall id :: id in ix.peerOf ==> ix.peerOf[id] < |ix.entries| && ix.entries[ix.peerOf[id]].peerID == id
  }

  /** A route leads to a live peer whose own address is the key of the route. */
  ghost predicate RouteLinked(ix: Index, a: uint32)
    requires a in ix.routes
  {
    var h := ix.routes[a];
    && h < |ix.entries| && ix.entries[h].localIP == a
    && ix.entries[h].peerID in ix.peerOf && ix.peerOf[ix.entries[h].peerID] == h
  }

  /** Holds after any sequence of operations, whatever the configuration. */
  ghost predicate Linked(ix: Index) {
    PeersLinked(ix) && forall a :: a in ix.routes ==> RouteLinked(ix, a)
  }

  function AddressOf(ix: Index, id: PeerId): uint32
    requires id in ix.peerOf && ix.peerOf[id] < |ix.entries|
  {
    ix.entries[ix.peerOf[id]].localIP
  }

  /** The peer is reachable under its own address. */
  ghost predicate Reachable(ix: Index, id: PeerId)
    requires PeersLinked(ix) && id in ix.peerOf
  {
    AddressOf(ix, id) in ix.routes && ix.routes[AddressOf(ix, id)] == ix.peerOf[id]
  }

  /** The two indexes are in bijection. */
  ghost predicate Bijection(ix: Index) {
    Linked(ix) && forall id :: id in ix.peerOf ==> Reachable(ix, id)
  }

  // ----- Operations

  function AddNew(ix: Index, id: PeerId, ip: uint32): Index {
    var h := |ix.entries|;
    Index(ix.peerOf[id := h], ix.routes[ip := h], ix.entries + [Entry(id, ip)])
  }

  /** The old address is deleted as an address, whoever holds it in the route table. */
  function Move(ix: Index, id: PeerId, ip: uint32): Index
    requires id in ix.peerOf && ix.peerOf[id] < |ix.entries|
  {
    var h := ix.peerOf[id];
    Index(ix.peerOf, (ix.routes - {ix.entries[h].localIP})[ip := h], ix.entries[h := Entry(ix.entries[h].peerID, ip)])
  }

  /** The first loop of a refresh, for one known peer. */
  function Upsert(ix: Index, id: PeerId, ip: IPText): Index {
    if !ip.IPv4? then ix
    else if id !in ix.peerOf then AddNew(ix, id, ip.addr)
    else if ix.peerOf[id] >= |ix.entries| then ix   // cannot happen while peers are linked
    else if AddressOf(ix, id) == ip.addr then ix
    else Move(ix, id, ip.addr)
  }

  /** Closing a peer: again the route is deleted by address. */
  function Drop(ix: Index, id: PeerId): Index {
    if id in ix.peerOf && ix.peerOf[id] < |ix.entries|
    then ix.(peerOf := ix.peerOf - {id}, routes := ix.routes - {AddressOf(ix, id)})
    else ix
  }

  function Upserts(ix: Index, conf: Registry, order: seq<PeerId>): Index {
    if order == [] then ix
    else
      var id := order[|order| - 1];
      Upsert(Upserts(ix, conf, order[..|order| - 1]), id, if id in conf then conf[id].ip else NoIP)
  }

  /** The second loop: peers that are no longer known are closed. */
  function Drops(ix: Index, conf: Registry, order: seq<PeerId>): Index {
    if order == [] then ix
    else
      var id := order[|order| - 1];
      var prev := Drops(ix, conf, order[..|order| - 1]);
      if id in conf then prev else Drop(prev, id)
  }

  function Refreshed(ix: Index, conf: Registry, order: seq<PeerId>, drops: seq<PeerId>): Index {
    Drops(Upserts(ix, conf, order), conf, drops)
  }

  // ----- The links hold for every configuration history

  lemma UpsertKeepsLinked(ix: Index, id: PeerId, ip: IPText)
    requires Linked(ix)
    ensures Linked(Upsert(ix, id, ip))
  {
    var now := Upsert(ix, id, ip);
    forall a | a in now.routes
      ensures RouteLinked(now, a)
    {
      if a in ix.routes {
        assert RouteLinked(ix, a);
      }
    }
  }

  lemma DropKeepsLinked(ix: Index, id: PeerId)
    requires Linked(ix)
    ensures Linked(Drop(ix, id))
  {
    var now := Drop(ix, id);
    forall a | a in now.routes
      ensures RouteLinked(now, a)
    {
      assert RouteLinked(ix, a);
    }
  }

  lemma {:induction false} UpsertsKeepLinked(ix: Index, conf: Registry, order: seq<PeerId>)
    requires Linked(ix)
    ensures Linked(Upserts(ix, conf, order))
  {
    if order != [] {
      var id := order[|order| - 1];
      UpsertsKeepLinked(ix, conf, order[..|order| - 1]);
      UpsertKeepsLinked(Upserts(ix, conf, order[..|order| - 1]), id, if id in conf then conf[id].ip else NoIP);
    }
  }

  lemma {:induction false} DropsKeepLinked(ix: Index, conf: Registry, order: seq<PeerId>)
    requires Linked(ix)
    ensures Linked(Drops(ix, conf, order))
  {
    if order != [] {
      DropsKeepLinked(ix, conf, order[..|order| - 1]);
      DropKeepsLinked(Drops(ix, conf, order[..|order| - 1]), order[|order| - 1]);
    }
  }

  /**
   * Whatever the configurations were, duplicates and swapped addresses included: every route
   * leads to a live peer whose address is the route's key.
   */
  lemma RefreshKeepsLinked(ix: Index, conf: Registry, order: seq<PeerId>, drops: seq<PeerId>)
    requires Linked(ix)
    ensures Linked(Refreshed(ix, conf, order, drops))
  {
    UpsertsKeepLinked(ix, conf, order);
    DropsKeepLinked(Upserts(ix, conf, order), conf, drops);
  }
}
