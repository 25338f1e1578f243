/**
 * What the user's changes and friend requests do to the records of a node, field by field
 * (service/auth_status.go, api/peers.go, config/config.go).
 */
module PeerRecords {
  import opened AddressPool
  import opened NodeState
  import opened Peers

  // ----- Text

  /** Trimming cuts white space from both ends and nothing else. */
  lemma TrimMeans(s: string) returns (i: nat, j: nat)
    ensures i <= j <= |s| && TrimSpace(s) == s[i..j]
    ensures forall k :: 0 <= k < i || j <= k < |s| ==> IsSpace(s[k])
    ensures i < j ==> !IsSpace(s[i]) && !IsSpace(s[j - 1])
  {
    i := TrimLeftMeans(s);
    var t := s[i..];
    var n := TrimRightMeans(t);
    j := i + n;
    assert t[..n] == s[i..j];
    assert forall k :: j <= k < |s| ==> s[k] == t[k - i];
  }

  lemma {:induction false} TrimLeftMeans(s: string) returns (i: nat)
    ensures i <= |s| && TrimLeft(s) == s[i..]
    ensures (forall k :: 0 <= k < i ==> IsSpace(s[k])) && (i < |s| ==> !IsSpace(s[i]))
  {
    if s != "" && IsSpace(s[0]) {
      var n := TrimLeftMeans(s[1..]);
      i := n + 1;
      assert forall k :: 1 <= k < i ==> s[k] == s[1..][k - 1];
    } else {
      i := 0;
    }
  }

  lemma {:induction false} TrimRightMeans(s: string) returns (j: nat)
    ensures j <= |s| && TrimRight(s) == s[..j]
    ensures (forall k :: j <= k < |s| ==> IsSpace(s[k])) && (j > 0 ==> !IsSpace(s[j - 1]))
  {
    if s != "" && IsSpace(s[|s| - 1]) {
      j := TrimRightMeans(s[..|s| - 1]);
    } else {
      j := |s|;
    }
  }

  /** A domain name is the trimmed text with inner white space as underscores and ASCII letters in lower case. */
  lemma DomainMeans(s: string)
    ensures |TrimDomainName(s)| == |TrimSpace(s)|
    ensures forall k :: 0 <= k < |TrimSpace(s)| ==>
              var c, d := TrimSpace(s)[k], TrimDomainName(s)[k];
              && (c in " \t\n\r" ==> d == '_') && ('A' <= c <= 'Z' ==> d as int == c as int + 32)
              && ('a' <= c <= 'z' || '0' <= c <= '9' || c in ".-_" ==> d == c)
  {
  }

  // ----- Adding

  /** Who may be added: a peer that is not known, under an alias and an address that nobody has. */
  lemma AddedExactlyWhen(n: Node, peer: PeerId, name: string, alias: string, confirmed: bool, ip: IPText)
    requires Keyed(n.known)
    ensures AddPeer(n, peer, name, alias, confirmed, ip) != n ==> peer !in n.known
    ensures peer !in n.known ==>
              (peer in AddPeer(n, peer, name, alias, confirmed, ip).known <==>
                && (forall id :: id in n.known && id != "" ==> n.known[id].alias != TrimSpace(alias))
                && (ip == NoIP
                    || (ip.IPv4? && n.net.Contains(ip.addr) && forall id :: id in n.known ==> n.known[id].ip != ip)))
  {
  }

  /**
   * An added peer has the given name and alias and the given or generated address, is as
   * confirmed as stated, has not declined, has no permission and gives none, and reports
   * nothing; its block is lifted, and nothing else changes.
   */
  lemma AddMeans(n: Node, peer: PeerId, name: string, alias: string, confirmed: bool, ip: IPText)
    requires AddAllowed(n, peer, alias, ip)
    ensures var m := AddPeer(n, peer, name, alias, confirmed, ip);
            && m == n.(known := m.known, blocked := m.blocked)
            && peer in m.known && peer !in m.blocked
            && (forall id :: id in n.known ==> id in m.known && m.known[id] == n.known[id])
            && (forall id :: id in m.known && id != peer ==> id in n.known)
            && (forall b :: b != peer ==> (b in m.blocked <==> b in n.blocked))
            && var p := m.known[peer];
               && p.peerID == peer && p.name == name && p.alias == TrimSpace(alias) && p.confirmed == confirmed
               && !p.declined && !p.weAllow && !p.allowed && p.reportedUsing == ""
               && p.domainName == TrimDomainName(if TrimSpace(alias) != "" then TrimSpace(alias) else name)
               && (ip != NoIP ==> p.ip == ip) && (ip == NoIP ==> p.ip == IPv4(Plus(Top(n.net, n.known), 1)))
  {
  }

  // ----- Changing and removing

  /** A change of settings sets the four fields as given and nothing else; a refused one sets nothing. */
  lemma UpdateMeans(n: Node, peer: PeerId, alias: string, domain: string, allow: bool, ip: IPText)
    requires Keyed(n.known)
    ensures var m := UpdatePeerSettings(n, peer, alias, domain, allow, ip);
            && (!UpdateAllowed(n, peer, alias, ip) ==> m == n)
            && (UpdateAllowed(n, peer, alias, ip) ==>
                  && m == n.(known := m.known) && m.known.Keys == n.known.Keys
                  && (forall id :: id in n.known && id != peer ==> m.known[id] == n.known[id])
                  && var p, q := n.known[peer], m.known[peer];
                     && q.alias == TrimSpace(alias) && q.domainName == domain && q.weAllow == allow && q.ip == ip
                     && q.peerID == p.peerID && q.name == p.name && q.confirmed == p.confirmed
                     && q.declined == p.declined && q.allowed == p.allowed && q.reportedUsing == p.reportedUsing)
  {
  }

  /** Who may be changed: a known peer, to an alias and an address that no other peer has. */
  lemma UpdatedExactlyWhen(n: Node, peer: PeerId, alias: string, ip: IPText)
    requires Keyed(n.known) && peer != ""
    ensures UpdateAllowed(n, peer, alias, ip) <==>
              && peer in n.known
              && (forall id :: id in n.known && id != peer ==> n.known[id].alias != TrimSpace(alias))
              && ip.IPv4? && n.net.Contains(ip.addr)
              && forall id :: id in n.known && id != peer ==> n.known[id].ip != ip
  {
  }

  lemma RemoveMeans(n: Node, peer: PeerId)
    ensures var m := RemovePeer(n, peer);
            && m == n.(known := m.known) && peer !in m.known
            && (forall id :: id in n.known && id != peer ==> id in m.known && m.known[id] == n.known[id])
            && (forall id :: id in m.known ==> id in n.known)
  {
  }

  // ----- Statuses

  /** A refusal is kept in the record of the peer and ends its use as exit node; nothing else changes. */
  lemma RefusalMeans(n: Node, peer: PeerId, info: PeerStatusInfo)
    requires Keyed(n.known) && peer in n.known && info.declined
    ensures var m := ProcessStatus(n, peer, info);
            && m == n.(known := m.known, using := m.using) && m.known.Keys == n.known.Keys
            && (forall id :: id in n.known && id != peer ==> m.known[id] == n.known[id])
            && m.known[peer] == n.known[peer].(declined := true)
            && m.using == if n.using == peer then "" else n.using
  {
  }

  /** A status of a peer removed in the meantime changes no record of a real peer. */
  lemma UnknownStatusMeans(n: Node, peer: PeerId, info: PeerStatusInfo)
    requires Keyed(n.known) && peer !in n.known
    ensures var m := ProcessStatus(n, peer, info);
            && m.known.Keys == n.known.Keys + {""}
            && (forall id :: id in n.known && id != "" ==> m.known[id] == n.known[id])
            && (n.using != "" ==> m.using == n.using)
  {
  }

  // ----- Friend requests

  /** A peer is told that it is confirmed exactly when it is known, and declined exactly when it is blocked. */
  lemma AnswerMeans(n: Node, from: PeerId, name: string)
    ensures var r := AuthReceived(n, from, name).1;
            (r.confirmed <==> from in n.known) && (r.declined <==> from in n.blocked)
  {
  }

  /**
   * A stranger's request is kept under its name for the user to decide, unless it is accepted
   * automatically; other requests change nothing.
   */
  lemma RequestMeans(n: Node, from: PeerId, name: string)
    ensures var m := AuthReceived(n, from, name).0;
            && m == n.(ingoing := m.ingoing)
            && (from in n.known || from in n.blocked || n.autoAccept ==> m.ingoing == n.ingoing)
            && (from !in n.known && from !in n.blocked && !n.autoAccept ==>
                  && from in m.ingoing && m.ingoing[from] == name
                  && (forall id :: id != from ==> (id in m.ingoing <==> id in n.ingoing))
                  && (forall id :: id in n.ingoing && id != from ==> m.ingoing[id] == n.ingoing[id]))
    ensures AutoAccepts(n, from) <==> from !in n.known && from !in n.blocked && n.autoAccept
  {
  }

  /** An answer that decides ends the request; a refusal is kept in the record of the peer. */
  lemma AnsweredMeans(n: Node, peer: PeerId, response: AuthResponse)
    requires Keyed(n.known)
    ensures var m := AuthAnswered(n, peer, response);
            && m == n.(known := m.known, outgoing := m.outgoing)
            && (response.confirmed || response.declined ==> peer !in m.outgoing)
            && (!response.confirmed && !response.declined ==> m == n)
            && (forall id :: id != peer && id in n.outgoing ==> id in m.outgoing && m.outgoing[id] == n.outgoing[id])
            && m.known.Keys == n.known.Keys
            && (forall id :: id in n.known && id != peer ==> m.known[id] == n.known[id])
            && (peer in n.known ==>
                  m.known[peer] == n.known[peer].(declined := n.known[peer].declined || response.declined))
  {
    if peer in n.known {
      assert n.known[peer := n.known[peer]] == n.known;
    }
  }

  /** After a restart exactly the peers that neither confirmed nor declined are asked again, by our name. */
  lemma RestartMeans(n: Node)
    ensures var m := Restart(n);
            && m == n.(ingoing := m.ingoing, outgoing := m.outgoing) && m.ingoing == map[]
            && (forall id :: id in m.outgoing <==>
                  id in n.known && !n.known[id].confirmed && !n.known[id].declined)
            && (forall id :: id in m.outgoing ==> m.outgoing[id] == n.name)
  {
  }
}
