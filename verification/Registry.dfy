/**
 * Aliases and addresses stay unique through every serialized history of additions, changes,
 * removals and status processing.
 */
module RegistryInvariant {
  import opened Addressing
  import opened AddressPool
  import opened Aliases
  import opened Bytes
  import opened ConfigEvents
  import opened NodeState
  import opened Peers

  /** Peers with a real id have distinct aliases. */
  ghost predicate AliasesDistinct(known: Registry) {
    forall i, j :: i in known && j in known && i != "" && j != "" && i != j ==> known[i].alias != known[j].alias
  }

  /** Peers with a real id have distinct addresses inside the subnet. */
  ghost predicate AddressesDistinct(net: Net, known: Registry) {
    && (forall i :: i in known && i != "" ==> UsesInside(net, known[i]))
    && (forall i, j :: i in known && j in known && i != "" && j != "" && i != j ==> known[i].ip != known[j].ip)
  }

  ghost predicate Sound(n: Node) {
    Keyed(n.known) && AliasesDistinct(n.known) && AddressesDistinct(n.net, n.known)
  }

  /** The API refuses empty ids; the generator still has an address inside the subnet. */
  ghost predicate Proper(n: Node, e: Event) {
    && (e.Add? || e.Update? ==> e.peer != "")
    && (e.Add? && e.ip == NoIP ==> Top(n.net, n.known) < n.net.Broadcast())
  }

  lemma AddKeepsSound(n: Node, peer: PeerId, name: string, alias: string, confirmed: bool, ip: IPText)
    requires Sound(n) && peer != "" && (ip == NoIP ==> Top(n.net, n.known) < n.net.Broadcast())
    ensures Sound(AddPeer(n, peer, name, alias, confirmed, ip))
  {
    if AddAllowed(n, peer, alias, ip) {
      var p := NewPeer(n, peer, name, alias, confirmed, ip);
      NewAddressIsFree(n, peer, ip);
      assert IPFree(n.net, n.known, p.ip, peer);
    }
  }

  /** Given or generated, the new peer's address is inside the subnet and nobody else's. */
  lemma NewAddressIsFree(n: Node, peer: PeerId, ip: IPText)
    requires ip == NoIP ==> Top(n.net, n.known) < n.net.Broadcast()
    requires ip == NoIP || IPFree(n.net, n.known, ip, peer)
    ensures IPFree(n.net, n.known, if ip == NoIP then IPv4(Plus(Top(n.net, n.known), 1)) else ip, peer)
  {
    if ip == NoIP {
      LocalIsInside(n.net);
      AboveTopIsFree(n.net, n.known, Top(n.net, n.known) + 1, peer);
    }
  }

  /** The only subnet that contains the address after its last one: all of IPv4, where 0 follows. */
  ghost predicate WrapsToFree(n: Node) {
    && n.net.Broadcast() == TWO32 - 1 && n.net.Contains(0)
    && forall id :: id in n.known && id != "" ==> n.known[id].ip != IPv4(0)
  }

  /** The exact condition: an addition keeps the registry sound iff a generated address still fits the subnet. */
  lemma AddIsSoundExactlyWhen(n: Node, peer: PeerId, name: string, alias: string, confirmed: bool, ip: IPText)
    requires Sound(n) && peer != "" && AddAllowed(n, peer, alias, ip)
    ensures Sound(AddPeer(n, peer, name, alias, confirmed, ip)) <==>
            (ip == NoIP ==> Top(n.net, n.known) < n.net.Broadcast() || WrapsToFree(n))
  {
    if ip == NoIP ==> Top(n.net, n.known) < n.net.Broadcast() {
      AddKeepsSound(n, peer, name, alias, confirmed, ip);
    } else {
      AddAtTheEnd(n, peer, name, alias, confirmed);
    }
  }

  lemma AddAtTheEnd(n: Node, peer: PeerId, name: string, alias: string, confirmed: bool)
    requires Sound(n) && peer != "" && AddAllowed(n, peer, alias, NoIP) && Top(n.net, n.known) >= n.net.Broadcast()
    ensures Sound(AddPeer(n, peer, name, alias, confirmed, NoIP)) <==> WrapsToFree(n)
  {
    TopIsInside(n.net, n.known);
    LocalIsInside(n.net);
    var known := AddPeer(n, peer, name, alias, confirmed, NoIP).known;
    var next := if n.net.Broadcast() == TWO32 - 1 then 0 else n.net.Broadcast() + 1;
    assert known[peer].ip == IPv4(next) && known[peer].alias == TrimSpace(alias);
    assert forall id :: id in n.known ==> id in known && known[id] == n.known[id];
    assert AliasesDistinct(known) && Keyed(known);
  }

  lemma UpdateKeepsSound(n: Node, peer: PeerId, alias: string, domain: string, allow: bool, ip: IPText)
    requires Sound(n) && peer != ""
    ensures Sound(UpdatePeerSettings(n, peer, alias, domain, allow, ip))
  {
  }

  /** A status never moves an address, and an alias it invents is new. */
  lemma StatusKeepsSound(n: Node, peer: PeerId, info: PeerStatusInfo)
    requires Sound(n)
    ensures Sound(ProcessStatus(n, peer, info))
  {
    var p := GetPeer(n.known, peer);
    if info.declined {
      PutKeepsSound(n.net, n.known, p.peerID, p.(declined := true));
    } else {
      var q := Accepting(n.known, p, info);
      AcceptingAlias(n.known, p, info);
      PutKeepsSound(n.net, n.known, p.peerID, q);
    }
  }

  lemma AcceptingAlias(known: Registry, p: KnownPeer, info: PeerStatusInfo)
    ensures var q := Accepting(known, p, info);
            && q.ip == p.ip && q.peerID == p.peerID
            && (q.alias == p.alias || forall id :: id in known ==> known[id].alias != q.alias)
  {
    assert forall id :: id in known ==> known[id].alias in AliasesOf(known);
  }

  /** Replacing a record by one with the same address, and the same or a new alias, is harmless. */
  lemma PutKeepsSound(net: Net, known: Registry, id: PeerId, q: KnownPeer)
    requires Keyed(known) && AliasesDistinct(known) && AddressesDistinct(net, known)
    requires q.peerID == id && (id != "" ==> id in known && q.ip == known[id].ip)
    requires id != "" && q.alias != known[id].alias ==> forall j :: j in known ==> known[j].alias != q.alias
    ensures Keyed(known[id := q]) && AliasesDistinct(known[id := q]) && AddressesDistinct(net, known[id := q])
  {
  }

  lemma DoKeepsSound(n: Node, e: Event)
    requires Sound(n) && Proper(n, e)
    ensures Sound(Do(n, e))
  {
    if e.Add? {
      AddKeepsSound(n, e.peer, e.name, e.alias, e.confirmed, e.ip);
    } else if e.Update? {
      UpdateKeepsSound(n, e.peer, e.alias, e.domain, e.allow, e.ip);
    } else if e.Status? {
      StatusKeepsSound(n, e.peer, e.info);
    } else {
      QuietEventKeepsSound(n, e);
    }
  }

  /** Records that keep their alias and address, or go away, are harmless. */
  lemma SameNamesKeepSound(n: Node, later: Registry)
    requires Sound(n)
    requires forall id :: id in later ==>
               && id in n.known && later[id].peerID == id
               && later[id].alias == n.known[id].alias && later[id].ip == n.known[id].ip
    ensures Sound(n.(known := later))
  {
  }

  /** The other events change neither an alias nor an address. */
  lemma QuietEventKeepsSound(n: Node, e: Event)
    requires Sound(n) && (e.Remove? || e.Block? || e.Answer? || e.Choose?)
    ensures Sound(Do(n, e))
  {
    if e.Remove? || e.Answer? {
      SameNamesKeepSound(n, Do(n, e).known);
    }
  }

  /**
   * For every history whose generated addresses fit the subnet: aliases stay pairwise
   * distinct, and addresses stay pairwise distinct and inside the subnet.
   */
  lemma {:induction false} HistoryKeepsSound(n: Node, events: seq<Event>)
    requires Sound(n)
    requires forall k :: 0 <= k < |events| ==> Proper(After(n, events[..k]), events[k])
    ensures Sound(After(n, events))
  {
    if events != [] {
      var last := |events| - 1;
      forall k | 0 <= k < last
        ensures Proper(After(n, events[..last][..k]), events[..last][k])
      {
        assert events[..last][..k] == events[..k];
      }
      HistoryKeepsSound(n, events[..last]);
      DoKeepsSound(After(n, events[..last]), events[last]);
    }
  }

  /**
   * Without room the property is lost: once the last address of the subnet is in use, the
   * generator hands every further peer one and the same address.
   */
  lemma FullSubnetRepeats(n: Node, a: PeerId, aliasA: string, b: PeerId, aliasB: string)
    requires Sound(n) && Top(n.net, n.known) == n.net.Broadcast()
    requires AddAllowed(n, a, aliasA, NoIP) && AddAllowed(AddPeer(n, a, "", aliasA, false, NoIP), b, aliasB, NoIP)
    ensures var m := AddPeer(AddPeer(n, a, "", aliasA, false, NoIP), b, "", aliasB, false, NoIP);
            a != b && m.known[a].ip == m.known[b].ip
  {
    var p, top := NewPeer(n, a, "", aliasA, false, NoIP), Top(n.net, n.known);
    var known := n.known[a := p];
    LocalIsInside(n.net);
    forall x | x in InUse(n.net, known)
      ensures x <= top
    {
      assert x == p.ip.addr || x in InUse(n.net, n.known);
    }
    forall x | x in InUse(n.net, n.known)
      ensures x in InUse(n.net, known)
    {
      if x != n.net.local {
        var id :| id in n.known && UsesInside(n.net, n.known[id]) && n.known[id].ip.addr == x;
        assert known[id] == n.known[id];
      }
    }
    TopIsUnique(n.net, known, top);
  }
}
