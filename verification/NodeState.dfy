/**
 * One node's configuration and friend requests, and what each config phase of
 * service/auth_status.go and of the API handlers does to them. A phase is the code between
 * two network operations; it is one step.
 */
module NodeState {
  import opened Addressing
  import opened AddressPool
  import opened Aliases
  import opened Peers

  /** The status record exchanged over the network (protocol.PeerStatusInfo). */
  datatype PeerStatusInfo = PeerStatusInfo(name: string, declined: bool, allow: bool, using: PeerId)

  datatype AuthResponse = AuthResponse(confirmed: bool, declined: bool)

  datatype Node = Node(
    id: PeerId,
    name: string,
    net: Net,
    autoAccept: bool,
    known: Registry,
    blocked: set<PeerId>,
    ingoing: map<PeerId, string>,    // requests received, with the name they carry
    outgoing: map<PeerId, string>,   // requests sent and not answered yet
    using: PeerId)                   // the chosen exit node, "" for none

  // ----- Text

  predicate IsSpace(c: char) {
    c == ' ' || '\t' <= c <= '\r'
  }

  function TrimLeft(s: string): string {
    if s != "" && IsSpace(s[0]) then TrimLeft(s[1..]) else s
  }

  function TrimSpace(s: string): string {
    TrimRight(TrimLeft(s))
  }

  function TrimRight(s: string): string {
    if s != "" && IsSpace(s[|s| - 1]) then TrimRight(s[..|s| - 1]) else s
  }

  function ToLower(c: char): char {
    if 'A' <= c <= 'Z' then (c as int + 32) as char else c
  }

  function TrimDomainName(s: string): string {
    var t := TrimSpace(s);
    seq(|t|, i requires 0 <= i < |t| => if IsSpace(t[i]) then '_' else ToLower(t[i]))
  }

  // ----- Reading

  /** What a lookup returns: the record, or the zero value for an unknown peer. */
  function GetPeer(known: Registry, id: PeerId): KnownPeer {
    if id in known then known[id] else ZERO_PEER
  }

  function CreatePeerInfo(n: Node, peer: KnownPeer, declined: bool): PeerStatusInfo {
    if declined then PeerStatusInfo("", true, false, "")
    else PeerStatusInfo(n.name, false, peer.weAllow, n.using)
  }

  ghost predicate AliasFree(known: Registry, exclude: PeerId, alias: string) {
    forall id :: id in known && known[id].peerID != exclude ==> known[id].alias != alias
  }

  // ----- Adding and changing peers

  ghost predicate AddAllowed(n: Node, peer: PeerId, alias: string, ip: IPText) {
    && peer !in n.known
    && AliasFree(n.known, "", TrimSpace(alias))
    && (ip == NoIP || IPFree(n.net, n.known, ip, peer))
  }

  ghost function NewPeer(n: Node, peer: PeerId, name: string, alias: string, confirmed: bool, ip: IPText): KnownPeer {
    var p := KnownPeer(peer, name, TrimSpace(alias),
                       if ip == NoIP then IPv4(Plus(Top(n.net, n.known), 1)) else ip,
                       "", confirmed, false, false, false, "");
    p.(domainName := TrimDomainName(p.DisplayName()))
  }

  /** An accepted request also lifts a block. */
  ghost function AddPeer(n: Node, peer: PeerId, name: string, alias: string, confirmed: bool, ip: IPText): Node {
    if AddAllowed(n, peer, alias, ip)
    then n.(blocked := n.blocked - {peer}, known := n.known[peer := NewPeer(n, peer, name, alias, confirmed, ip)])
    else n
  }

  ghost predicate UpdateAllowed(n: Node, peer: PeerId, alias: string, ip: IPText) {
    && peer in n.known
    && AliasFree(n.known, peer, TrimSpace(alias))
    && IPFree(n.net, n.known, ip, n.known[peer].peerID)
  }

  /** The user's changes to one peer: only the four editable fields move. */
  ghost function UpdatePeerSettings(
    n: Node, peer: PeerId, alias: string, domain: string, allow: bool, ip: IPText): Node
  {
    if UpdateAllowed(n, peer, alias, ip)
    then var p := n.known[peer].(alias := TrimSpace(alias), domainName := domain, weAllow := allow, ip := ip);
         n.(known := n.known[p.peerID := p])
    else n
  }

  function RemovePeer(n: Node, peer: PeerId): Node {
    n.(known := n.known - {peer})
  }

  function BlockPeer(n: Node, peer: PeerId): Node {
    n.(blocked := n.blocked + {peer})
  }

  /** The user's choice of an exit node; refused unless the peer allows it. */
  function ChooseProxy(n: Node, peer: PeerId): Node {
    if peer == "" || (peer in n.known && n.known[peer].allowed) then n.(using := peer) else n
  }

  // ----- Status

  /** The record after a status that is not a refusal. */
  function Accepting(known: Registry, peer: KnownPeer, info: PeerStatusInfo): KnownPeer {
    var p := peer.(name := info.name, confirmed := true, declined := false);
    var q := if p.domainName == "" then p.(domainName := TrimDomainName(p.DisplayName())) else p;
    var r := if q.alias == "" then q.(alias := GenAlias(q.name, q.alias, AliasesOf(known))) else q;
    r.(allowed := info.allow, reportedUsing := info.using)
  }

  /** The exit node after a status of `peer`: dropped when withdrawn, picked up when none is set. */
  function UsingAfter(using: PeerId, peer: KnownPeer): PeerId {
    if peer.allowed && using == "" then peer.peerID
    else if !peer.allowed && using == peer.peerID then ""
    else using
  }

  /**
   * Reads the latest record of `remote` and applies the status to it. For a peer removed in
   * the meantime this is the zero record, which lands under the empty id.
   */
  function ProcessStatus(n: Node, remote: PeerId, info: PeerStatusInfo): Node {
    var peer := GetPeer(n.known, remote);
    if info.declined then
      n.(known := n.known[peer.peerID := peer.(declined := true)],
         using := if n.using == peer.peerID then "" else n.using)
    else
      var p := Accepting(n.known, peer, info);
      n.(known := n.known[p.peerID := p], using := UsingAfter(n.using, p))
  }

  // ----- Friend requests

  /** A request is answered from the config; one from a stranger is kept unless auto-accepted. */
  function AuthReceived(n: Node, from: PeerId, name: string): (Node, AuthResponse) {
    var response := AuthResponse(from in n.known, from in n.blocked);
    if from !in n.known && from !in n.blocked && !n.autoAccept
    then (n.(ingoing := n.ingoing[from := name]), response)
    else (n, response)
  }

  predicate AutoAccepts(n: Node, from: PeerId) {
    from !in n.known && from !in n.blocked && n.autoAccept
  }

  function AuthAnswered(n: Node, peer: PeerId, response: AuthResponse): Node {
    var m := if response.confirmed || response.declined then n.(outgoing := n.outgoing - {peer}) else n;
    if response.declined && peer in m.known
    then var p := m.known[peer].(declined := true); m.(known := m.known[p.peerID := p])
    else m
  }

  /** After a restart: requests are rebuilt from the peers that never answered. */
  function Restart(n: Node): Node {
    n.(ingoing := map[],
       outgoing := map id | id in n.known && !n.known[id].confirmed && !n.known[id].declined :: n.name)
  }
}
