/** Serialized histories of one node's configuration: each event is handled on its own. */
module ConfigEvents {
  import opened NodeState
  import opened Peers

  datatype Event =
    | Add(peer: PeerId, name: string, alias: string, confirmed: bool, ip: IPText)
    | Update(peer: PeerId, alias: string, domain: string, allow: bool, ip: IPText)
    | Remove(peer: PeerId)
    | Block(peer: PeerId)
    | Status(peer: PeerId, info: PeerStatusInfo)
    | Answer(peer: PeerId, response: AuthResponse)
    | Choose(peer: PeerId)

  ghost function Do(n: Node, e: Event): Node {
    match e
    case Add(peer, name, alias, confirmed, ip) => AddPeer(n, peer, name, alias, confirmed, ip)
    case Update(peer, alias, domain, allow, ip) => UpdatePeerSettings(n, peer, alias, domain, allow, ip)
    case Remove(peer) => RemovePeer(n, peer)
    case Block(peer) => BlockPeer(n, peer)
    case Status(peer, info) => ProcessStatus(n, peer, info)
    case Answer(peer, response) => AuthAnswered(n, peer, response)
    case Choose(peer) => ChooseProxy(n, peer)
  }

  /** The node after the events, in order. */
  ghost function After(n: Node, events: seq<Event>): Node {
    if events == [] then n else Do(After(n, events[..|events| - 1]), events[|events| - 1])
  }

  lemma DoKeepsKeyed(n: Node, e: Event)
    requires Keyed(n.known)
    ensures Keyed(Do(n, e).known)
  {
    match e
    case Status(peer, info) => StatusKeepsKeyed(n, peer, info);
    case Add(_, _, _, _, _) =>
    case Update(_, _, _, _, _) =>
    case Remove(_) =>
    case Block(_) =>
    case Answer(_, _) =>
    case Choose(_) =>
  }

  lemma StatusKeepsKeyed(n: Node, peer: PeerId, info: PeerStatusInfo)
    requires Keyed(n.known)
    ensures Keyed(ProcessStatus(n, peer, info).known)
  {
  }

  // ----- Blocking

  /** What the configuration says to a request or a stream of the peer that starts now is a refusal. */
  ghost predicate Refuses(n: Node, peer: PeerId) {
    && (forall record :: CreatePeerInfo(n, record, peer in n.blocked) == PeerStatusInfo("", true, false, ""))
    && (forall name :: AuthReceived(n, peer, name).1.declined && AuthReceived(n, peer, name).0 == n)
    && !AutoAccepts(n, peer)
  }

  /** Only an allowed addition of the peer itself lifts a block. */
  lemma UnblockedExactlyWhen(n: Node, e: Event, peer: PeerId)
    requires peer in n.blocked
    ensures peer !in Do(n, e).blocked <==> e.Add? && e.peer == peer && AddAllowed(n, peer, e.alias, e.ip)
  {
  }

  lemma BlockRefuses(n: Node, peer: PeerId)
    requires peer in n.blocked
    ensures Refuses(n, peer)
  {
  }

  /** A block survives every history in which the peer is not added again. */
  lemma {:induction false} BlockStays(n: Node, peer: PeerId, events: seq<Event>)
    requires peer in n.blocked
    requires forall k :: 0 <= k < |events| ==> !(events[k].Add? && events[k].peer == peer)
    ensures peer in After(n, events).blocked
  {
    if events != [] {
      BlockStays(n, peer, events[..|events| - 1]);
      UnblockedExactlyWhen(After(n, events[..|events| - 1]), events[|events| - 1], peer);
    }
  }
}
