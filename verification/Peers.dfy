/** Peer records of the configuration (config/config.go), without their timestamps. */
module Peers {
  import opened Bytes

  /** The textual peer id; the empty string is never the id of a node. */
  type PeerId = string

  /** The text of an address field: one canonical text per IPv4 address. */
  datatype IPText = NoIP | Malformed(text: string) | IPv4(addr: uint32)

  datatype KnownPeer = KnownPeer(
    peerID: PeerId,
    name: string,             // provided by the peer
    alias: string,            // provided by the user
    ip: IPText,
    domainName: string,
    confirmed: bool,
    declined: bool,
    weAllow: bool,            // WeAllowUsingAsExitNode
    allowed: bool,            // AllowedUsingAsExitNode
    reportedUsing: PeerId)    // ReportedUsingPeerID
  {
    function DisplayName(): string {
      if alias != "" then alias else name
    }
  }

  /** The Go zero value, which a lookup of a missing peer returns. */
  const ZERO_PEER := KnownPeer("", "", "", NoIP, "", false, false, false, false, "")

  /** Records sit under their own id, as every insertion of the code leaves them. */
  ghost predicate Keyed(known: map<PeerId, KnownPeer>) {
    forall id :: id in known ==> known[id].peerID == id
  }
}
