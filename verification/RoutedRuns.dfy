/**
 * Route lookup along whole runs: a node whose configuration changes one checked event at a
 * time, each followed by its own refresh of the tunnel (the KnownPeerChanged subscription of
 * application.go), always routes exactly as a scan of its configuration would.
 */
module RoutedRuns {
  import opened AddressPool
  import opened Addressing
  import opened Bytes
  import opened ConfigEvents
  import opened NodeState
  import opened Peers
  import opened Routing
  import opened TunnelIndex

  /** Records sit under their own id, valid addresses are distinct, and the empty id has none. */
  ghost predicate Ready(n: Node) {
    Keyed(n.known) && Distinct(n.known) && ("" in n.known ==> n.known[""].ip == NoIP)
  }

  /** The indexes are in step with the configuration, and hold only peers with valid addresses. */
  ghost predicate Synced(n: Node, ix: Index) {
    InSync(ix, n.known) && "" !in ix.peerOf && forall q :: q in ix.peerOf ==> n.known[q].ip.IPv4?
  }

  /** A generated address is nobody's yet. */
  ghost predicate GetsOwnAddress(n: Node, e: Event) {
    e.Add? && e.ip == NoIP && AddAllowed(n, e.peer, e.alias, e.ip) ==>
      forall id :: id in n.known ==> n.known[id].ip != IPv4(Plus(Top(n.net, n.known), 1))
  }

  /** The API refuses empty ids. */
  predicate Named(e: Event) {
    e.Add? || e.Update? ==> e.peer != ""
  }

  /** While the generator has room in the subnet its address is nobody's. */
  lemma RoomGivesOwnAddress(n: Node, e: Event)
    requires Top(n.net, n.known) < n.net.Broadcast()
    ensures GetsOwnAddress(n, e)
  {
    LocalIsInside(n.net);
    AboveTopIsFree(n.net, n.known, Top(n.net, n.known) + 1, "");
  }

  // ----- One event

  /** The event leaves peer `p` where it was: as known as before, with the same address. */
  ghost predicate Undisturbed(known: Registry, later: Registry, p: PeerId) {
    (p in known <==> p in later) && (p in known ==> later[p].ip == known[p].ip)
  }

  lemma OnlyOnePeerMoves(n: Node, e: Event, p: PeerId)
    requires Keyed(n.known) && p != "" && !((e.Add? || e.Update? || e.Remove?) && e.peer == p)
    ensures Undisturbed(n.known, Do(n, e).known, p)
  {
    if e.Status? {
      StatusMovesNobody(n, e.peer, e.info, p);
    }
  }

  lemma StatusMovesNobody(n: Node, peer: PeerId, info: PeerStatusInfo, p: PeerId)
    requires Keyed(n.known) && p != ""
    ensures Undisturbed(n.known, ProcessStatus(n, peer, info).known, p)
  {
  }

  /** Of two peers with one address, at least one would have had to move. */
  lemma NotTaken(ix: Index, known: Registry, later: Registry, id: PeerId, q: PeerId)
    requires InSync(ix, known) && Distinct(later)
    requires Takes(ix, later, id) && q in ix.peerOf && q != id && known[q].ip.IPv4?
    requires Undisturbed(known, later, q) || Undisturbed(known, later, id)
    ensures AddressOf(ix, q) != later[id].ip.addr
  {
    assert Routed(ix, known, q);
    if Undisturbed(known, later, id) {
      assert Routed(ix, known, id);
    }
  }

  lemma StatusKeepsReady(n: Node, peer: PeerId, info: PeerStatusInfo)
    requires Ready(n)
    ensures Ready(ProcessStatus(n, peer, info))
  {
    StatusKeepsKeyed(n, peer, info);
    var m := ProcessStatus(n, peer, info);
    assert forall id :: id in m.known && m.known[id].ip.IPv4? ==> id in n.known && m.known[id].ip == n.known[id].ip;
  }

  lemma UpdateKeepsReady(n: Node, peer: PeerId, alias: string, domain: string, allow: bool, ip: IPText)
    requires Ready(n) && peer != ""
    ensures Ready(UpdatePeerSettings(n, peer, alias, domain, allow, ip))
  {
  }

  /** An addition keeps addresses distinct exactly when its address is nobody's; a given one was checked. */
  lemma AddKeepsReady(n: Node, e: Event)
    requires Ready(n) && e.Add? && e.peer != ""
    ensures Ready(Do(n, e)) <==> GetsOwnAddress(n, e)
  {
    if AddAllowed(n, e.peer, e.alias, e.ip) {
      var known := Do(n, e).known;
      assert forall id :: id in n.known ==> id in known && known[id] == n.known[id];
      assert known[e.peer].ip.IPv4?;
      if !GetsOwnAddress(n, e) {
        var id :| id in n.known && n.known[id].ip == IPv4(Plus(Top(n.net, n.known), 1));
        assert known[id].ip == known[e.peer].ip;
      }
    }
  }

  /** The only event that can spoil it is an addition whose generated address is taken already. */
  lemma ReadyExactlyWhen(n: Node, e: Event)
    requires Ready(n) && Named(e)
    ensures Ready(Do(n, e)) <==> GetsOwnAddress(n, e)
  {
    if e.Add? {
      AddKeepsReady(n, e);
    } else if e.Update? {
      UpdateKeepsReady(n, e.peer, e.alias, e.domain, e.allow, e.ip);
    } else if e.Status? {
      StatusKeepsReady(n, e.peer, e.info);
    } else {
      QuietEventKeepsReady(n, e);
    }
  }

  lemma QuietEventKeepsReady(n: Node, e: Event)
    requires Ready(n) && (e.Remove? || e.Block? || e.Answer? || e.Choose?)
    ensures Ready(Do(n, e))
  {
    DoKeepsKeyed(n, e);
    var m := Do(n, e);
    assert forall id :: id in m.known ==> id in n.known && m.known[id].ip == n.known[id].ip;
  }

  /** No event makes the valid address of a peer that stays known invalid. */
  lemma StaysValid(n: Node, e: Event, q: PeerId)
    requires Ready(n) && Named(e) && q != "" && q in n.known && n.known[q].ip.IPv4? && q in Do(n, e).known
    ensures Do(n, e).known[q].ip.IPv4?
  {
    if e.Status? {
      StatusMovesNobody(n, e.peer, e.info, q);
    }
  }

  lemma EventTakesOverNothing(n: Node, ix: Index, e: Event)
    requires Ready(n) && Synced(n, ix) && Named(e) && GetsOwnAddress(n, e)
    ensures NoTakeover(ix, Do(n, e).known)
  {
    var later := Do(n, e).known;
    ReadyExactlyWhen(n, e);
    forall id, q | Takes(ix, later, id) && q in ix.peerOf
      ensures AddressOf(ix, q) != later[id].ip.addr
    {
      if q != id {
        var touched := e.Add? || e.Update? || e.Remove?;
        OnlyOnePeerMoves(n, e, if touched && e.peer == id then q else id);
        NotTaken(ix, n.known, later, id, q);
      }
    }
  }

  // ----- One turn: the event, then a refresh in any iteration order

  datatype Turn = Turn(event: Event, order: seq<PeerId>, drops: seq<PeerId>)

  ghost predicate TurnOk(n: Node, ix: Index, t: Turn) {
    var known := Do(n, t.event).known;
    && Named(t.event) && GetsOwnAddress(n, t.event)
    && Visits(t.order, known.Keys) && Visits(t.drops, Upserts(ix, known, t.order).peerOf.Keys)
  }

  lemma {:induction false} UpsertsAddNoBlank(ix: Index, conf: Registry, order: seq<PeerId>)
    requires "" !in ix.peerOf && ("" in conf ==> conf[""].ip == NoIP)
    ensures "" !in Upserts(ix, conf, order).peerOf
  {
    if order != [] {
      UpsertsAddNoBlank(ix, conf, order[..|order| - 1]);
    }
  }

  lemma TurnKeepsSynced(n: Node, ix: Index, t: Turn)
    requires Ready(n) && Synced(n, ix) && TurnOk(n, ix, t)
    ensures var m := Do(n, t.event); Ready(m) && Synced(m, Refreshed(ix, m.known, t.order, t.drops))
  {
    var m := Do(n, t.event);
    ReadyExactlyWhen(n, t.event);
    EventTakesOverNothing(n, ix, t.event);
    RefreshSucceeds(ix, m.known, t.order, t.drops);
    UpsertsAddNoBlank(ix, m.known, t.order);
    OnlyValidStay(ix, m.known, t.order, t.drops);
    forall q | q in ix.peerOf && q in m.known
      ensures m.known[q].ip.IPv4?
    {
      StaysValid(n, t.event, q);
    }
  }

  /** Whoever is in the indexes after a refresh was there before, or has a valid address. */
  lemma OnlyValidStay(ix: Index, conf: Registry, order: seq<PeerId>, drops: seq<PeerId>)
    requires Bijection(ix) && Distinct(conf) && NoTakeover(ix, conf)
    requires Visits(order, conf.Keys) && Visits(drops, Upserts(ix, conf, order).peerOf.Keys)
    ensures var now, mid := Refreshed(ix, conf, order, drops), Upserts(ix, conf, order);
            forall q :: q in now.peerOf ==> q in mid.peerOf && q in conf && (q in ix.peerOf || conf[q].ip.IPv4?)
  {
    var now, mid := Refreshed(ix, conf, order, drops), Upserts(ix, conf, order);
    UpsertsSucceed(ix, conf, order);
    DropsSucceed(mid, conf, drops);
    forall q | q in now.peerOf
      ensures q in mid.peerOf && q in conf && (q in ix.peerOf || conf[q].ip.IPv4?)
    {
      assert Placed(ix, mid, conf, order, q);
    }
  }

  // ----- Runs

  ghost function RunNode(n: Node, turns: seq<Turn>): Node {
    if turns == [] then n else Do(RunNode(n, turns[..|turns| - 1]), turns[|turns| - 1].event)
  }

  ghost function RunIndex(n: Node, ix: Index, turns: seq<Turn>): Index {
    if turns == [] then ix
    else
      var t := turns[|turns| - 1];
      Refreshed(RunIndex(n, ix, turns[..|turns| - 1]), RunNode(n, turns).known, t.order, t.drops)
  }

  ghost predicate RunOk(n: Node, ix: Index, turns: seq<Turn>) {
    turns != [] ==>
      var before := turns[..|turns| - 1];
      RunOk(n, ix, before) && TurnOk(RunNode(n, before), RunIndex(n, ix, before), turns[|turns| - 1])
  }

  lemma {:induction false} RunStaysSynced(n: Node, ix: Index, turns: seq<Turn>)
    requires Ready(n) && Synced(n, ix) && RunOk(n, ix, turns)
    ensures Ready(RunNode(n, turns)) && Synced(RunNode(n, turns), RunIndex(n, ix, turns))
  {
    if turns != [] {
      var before := turns[..|turns| - 1];
      RunStaysSynced(n, ix, before);
      TurnKeepsSynced(RunNode(n, before), RunIndex(n, ix, before), turns[|turns| - 1]);
    }
  }

  /** NewTunnel: the first refresh, of empty indexes, of any such configuration. */
  lemma FirstRefreshSyncs(n: Node, order: seq<PeerId>, drops: seq<PeerId>)
    requires Ready(n) && Visits(order, n.known.Keys) && Visits(drops, Upserts(EMPTY, n.known, order).peerOf.Keys)
    ensures Synced(n, Refreshed(EMPTY, n.known, order, drops))
  {
    RefreshSucceeds(EMPTY, n.known, order, drops);
    UpsertsAddNoBlank(EMPTY, n.known, order);
    OnlyValidStay(EMPTY, n.known, order, drops);
  }

  /** The peer that the route table has for `dst`; "" for none. */
  function Lookup(ix: Index, dst: uint32): PeerId {
    if dst in ix.routes && ix.routes[dst] < |ix.entries| then ix.entries[ix.routes[dst]].peerID else ""
  }

  /**
   * Along every run the lookup agrees with a scan of the configuration: the route of `dst`
   * leads to `id` exactly when `id` is the known peer with that address.
   */
  lemma LookupIsAScan(n: Node, ix: Index, turns: seq<Turn>, dst: uint32, id: PeerId)
    requires Ready(n) && Synced(n, ix) && RunOk(n, ix, turns) && id != ""
    ensures var known := RunNode(n, turns).known;
            Lookup(RunIndex(n, ix, turns), dst) == id <==> id in known && known[id].ip == IPv4(dst)
  {
    RunStaysSynced(n, ix, turns);
    var m, now := RunNode(n, turns), RunIndex(n, ix, turns);
    if id in m.known && m.known[id].ip == IPv4(dst) {
      assert Routed(now, m.known, id);
    }
    if Lookup(now, dst) == id {
      assert RouteLinked(now, dst) && Routed(now, m.known, id);
    }
  }
}
