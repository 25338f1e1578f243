/**
 * The mutable side of a node: the configuration maps and the pending requests of
 * service/auth_status.go, changed in place by its handlers and by those of api/peers.go and
 * api/settings.go. Every method is proved to do what the step of the same name says.
 */
module AuthStatusService {
  import C = ConfigEvents
  import opened Addressing
  import opened AddressPool
  import opened Aliases
  import N = NodeState
  import opened Peers

  class AuthStatus {
    const id: PeerId
    const net: Net
    var name: string
    var autoAcceptAuthRequests: bool
    var knownPeers: Registry
    var blockedPeers: set<PeerId>
    var ingoingAuths: map<PeerId, string>
    var outgoingAuths: map<PeerId, string>
    var usingPeerID: PeerId

    function State(): N.Node
      reads this
    {
      N.Node(id, name, net, autoAcceptAuthRequests, knownPeers, blockedPeers, ingoingAuths, outgoingAuths, usingPeerID)
    }

    /** A process start over a stored configuration. */
    constructor (conf: N.Node)
      ensures State() == N.Restart(conf)
    {
      id, net, name, autoAcceptAuthRequests := conf.id, conf.net, conf.name, conf.autoAccept;
      knownPeers, blockedPeers, usingPeerID := conf.known, conf.blocked, conf.using;
      ingoingAuths, outgoingAuths := map[], map[];
      new;
      RestoreOutgoingAuths();
    }

    /** The loop over the known peers, in any order: exactly those that never answered. */
    method RestoreOutgoingAuths()
      modifies this
      ensures State() == old(State()).(outgoing := N.Restart(old(State())).outgoing)
    {
      var outgoing: map<PeerId, string> := map[];
      var rest := knownPeers.Keys;
      while rest != {}
        invariant State() == old(State()) && rest <= knownPeers.Keys
        invariant outgoing == map p |
                    p in knownPeers && p !in rest && !knownPeers[p].confirmed && !knownPeers[p].declined :: name
        decreases rest
      {
        var p :| p in rest;
        rest := rest - {p};
        if !knownPeers[p].confirmed && !knownPeers[p].declined {
          outgoing := outgoing[p := name];
        }
      }
      outgoingAuths := outgoing;
    }

    method AcceptedRecord(known: KnownPeer, info: N.PeerStatusInfo) returns (peer: KnownPeer)
      ensures peer == N.Accepting(knownPeers, known, info)
    {
      peer := known;
      peer := peer.(name := info.name);
      peer := peer.(confirmed := true);
      peer := peer.(declined := false);
      if peer.domainName == "" {
        peer := peer.(domainName := N.TrimDomainName(peer.DisplayName()));
      }
      if peer.alias == "" {
        var alias, used := GenUniqPeerAlias(peer.name, peer.alias, AliasesOf(knownPeers));
        peer := peer.(alias := alias);
      }
      peer := peer.(allowed := info.allow);
      peer := peer.(reportedUsing := info.using);
    }

    method ProcessPeerStatusInfo(remote: PeerId, info: N.PeerStatusInfo)
      modifies this
      ensures State() == N.ProcessStatus(old(State()), remote, info)
    {
      var peer := N.GetPeer(knownPeers, remote);
      if info.declined {
        peer := peer.(declined := true);
        knownPeers := knownPeers[peer.peerID := peer];
        if usingPeerID == peer.peerID {
          usingPeerID := "";
        }
        return;
      }
      peer := AcceptedRecord(peer, info);
      knownPeers := knownPeers[peer.peerID := peer];
      if peer.allowed && usingPeerID == "" {
        usingPeerID := peer.peerID;
      }
      if !peer.allowed && usingPeerID == peer.peerID {
        usingPeerID := "";
      }
    }

    method AddPeer(peerID: PeerId, name: string, alias: string, confirmed: bool, ipAddr: IPText) returns (ok: bool)
      modifies this
      ensures ok <==> N.AddAllowed(old(State()), peerID, alias, ipAddr)
      ensures State() == N.AddPeer(old(State()), peerID, name, alias, confirmed, ipAddr)
    {
      if peerID in knownPeers {
        return false;
      }
      var trimmed := N.TrimSpace(alias);
      var uniq := IsUniqPeerAlias(knownPeers, "", trimmed);
      if !uniq {
        return false;
      }
      var ip := ipAddr;
      if ip != NoIP {
        var check := CheckIPUnique(net, knownPeers, ip, peerID);
        if !check.Accepted? {
          return false;
        }
      } else {
        var next;
        ghost var steps;
        assert IPv4(0) !in [];
        next, steps := GenerateNextIpAddrExcept(net, knownPeers, []);
        ip := IPv4(next);
      }
      var peer := KnownPeer(peerID, name, trimmed, ip, "", confirmed, false, false, false, "");
      peer := peer.(domainName := N.TrimDomainName(peer.DisplayName()));
      blockedPeers := blockedPeers - {peerID};
      knownPeers := knownPeers[peerID := peer];
      return true;
    }

    method UpdatePeerSettings(peerID: PeerId, alias: string, domain: string, allow: bool, ip: IPText) returns (ok: bool)
      modifies this
      ensures ok <==> N.UpdateAllowed(old(State()), peerID, alias, ip)
      ensures State() == N.UpdatePeerSettings(old(State()), peerID, alias, domain, allow, ip)
    {
      if peerID !in knownPeers {
        return false;
      }
      var peer := knownPeers[peerID];
      var trimmed := N.TrimSpace(alias);
      var uniq := IsUniqPeerAlias(knownPeers, peerID, trimmed);
      if !uniq {
        return false;
      }
      var check := CheckIPUnique(net, knownPeers, ip, peer.peerID);
      if !check.Accepted? {
        return false;
      }
      peer := peer.(alias := trimmed, domainName := domain, weAllow := allow, ip := ip);
      knownPeers := knownPeers[peer.peerID := peer];
      return true;
    }

    /** The config part of AuthStreamHandler: the answer, and whether to accept by itself. */
    method AuthRequest(from: PeerId, name: string) returns (response: N.AuthResponse, accept: bool)
      modifies this`ingoingAuths
      ensures (State(), response) == N.AuthReceived(old(State()), from, name)
      ensures accept <==> N.AutoAccepts(old(State()), from)
    {
      var isBlocked, confirmed := from in blockedPeers, from in knownPeers;
      if !confirmed && !isBlocked && !autoAcceptAuthRequests {
        ingoingAuths := ingoingAuths[from := name];
      }
      accept := !confirmed && !isBlocked && autoAcceptAuthRequests;
      response := N.AuthResponse(confirmed, isBlocked);
    }

    /** The config part of SendAuthRequest once the answer is there. */
    method AuthAnswer(peerID: PeerId, response: N.AuthResponse)
      modifies this
      ensures State() == N.AuthAnswered(old(State()), peerID, response)
    {
      if response.confirmed || response.declined {
        outgoingAuths := outgoingAuths - {peerID};
      }
      if response.declined {
        if peerID in knownPeers {
          var peer := knownPeers[peerID].(declined := true);
          knownPeers := knownPeers[peer.peerID := peer];
        }
      }
    }

    method RemovePeer(peerID: PeerId) returns (exists_: bool)
      modifies this`knownPeers
      ensures State() == N.RemovePeer(old(State()), peerID)
      ensures exists_ <==> peerID in old(knownPeers)
    {
      exists_ := peerID in knownPeers;
      if exists_ {
        knownPeers := knownPeers - {peerID};
      }
    }

    /** Requests and streams of the peer that start from now on are refused. */
    method BlockPeer(peerID: PeerId)
      modifies this`blockedPeers
      ensures State() == N.BlockPeer(old(State()), peerID) && C.Refuses(State(), peerID)
    {
      blockedPeers := blockedPeers + {peerID};
      C.BlockRefuses(State(), peerID);
    }

    method UpdateProxySettings(peerID: PeerId) returns (ok: bool)
      modifies this`usingPeerID
      ensures State() == N.ChooseProxy(old(State()), peerID)
      ensures ok <==> peerID == "" || (peerID in knownPeers && knownPeers[peerID].allowed)
    {
      var peer := N.GetPeer(knownPeers, peerID);
      if peerID == "" {
      } else if peerID !in knownPeers {
        return false;
      } else if !peer.allowed {
        return false;
      }
      usingPeerID := peerID;
      return true;
    }
  }
}
