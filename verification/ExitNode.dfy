/**
 * The choice of an exit node stays backed by the permission of the chosen peer
 * (service/auth_status.go, api/settings.go, service/socks5.go).
 */
module ExitNode {
  import opened ConfigEvents
  import opened NodeState
  import opened Peers

  /** If `u` is chosen and known, it allows being used. */
  ghost predicate Permitted(n: Node, u: PeerId) {
    n.using == u && u in n.known ==> n.known[u].allowed
  }

  lemma DoKeepsPermitted(n: Node, e: Event, u: PeerId)
    requires Keyed(n.known) && u != "" && Permitted(n, u) && !(e.Add? && e.peer == u)
    ensures Permitted(Do(n, e), u)
  {
    if e.Status? {
      StatusOfAnother(n, e.peer, e.info, u);
    }
  }

  lemma StatusOfAnother(n: Node, peer: PeerId, info: PeerStatusInfo, u: PeerId)
    requires Keyed(n.known) && u != "" && Permitted(n, u)
    ensures Permitted(ProcessStatus(n, peer, info), u)
  {
  }

  lemma StatusPermits(n: Node, u: PeerId, info: PeerStatusInfo)
    requires Keyed(n.known) && u != ""
    ensures Permitted(ProcessStatus(n, u, info), u)
  {
  }

  lemma {:induction false} AfterIsKeyed(n: Node, events: seq<Event>)
    requires Keyed(n.known)
    ensures Keyed(After(n, events).known)
  {
    if events != [] {
      AfterIsKeyed(n, events[..|events| - 1]);
      DoKeepsKeyed(After(n, events[..|events| - 1]), events[|events| - 1]);
    }
  }

  /**
   * From any configuration and for every history: once a status of `u` has been processed and
   * `u` has not been added again since, choosing `u` means having its permission.
   */
  lemma {:induction false} ChoiceIsPermitted(n: Node, events: seq<Event>, j: nat, u: PeerId)
    requires Keyed(n.known) && u != "" && j < |events|
    requires events[j].Status? && events[j].peer == u
    requires forall k :: j < k < |events| ==> !(events[k].Add? && events[k].peer == u)
    ensures Permitted(After(n, events), u)
    decreases |events|
  {
    var last := |events| - 1;
    AfterIsKeyed(n, events[..last]);
    if j == last {
      StatusPermits(After(n, events[..last]), u, events[j].info);
    } else {
      ChoiceIsPermitted(n, events[..last], j, u);
      DoKeepsPermitted(After(n, events[..last]), events[last], u);
    }
  }

  // ----- The exact conditions, event by event and along whole histories

  /** Removing a peer leaves it chosen; adding it again makes it a chosen peer without permission. */
  ghost predicate AddedWhileChosen(n: Node, e: Event, u: PeerId) {
    e.Add? && e.peer == u && AddAllowed(n, u, e.alias, e.ip) && n.using == u
  }

  lemma PermittedExactlyWhen(n: Node, e: Event, u: PeerId)
    requires Keyed(n.known) && u != "" && Permitted(n, u)
    ensures Permitted(Do(n, e), u) <==> !AddedWhileChosen(n, e, u)
  {
    if !(e.Add? && e.peer == u) {
      DoKeepsPermitted(n, e, u);
    }
  }

  /** If `u` is chosen and known, it has not declined us. */
  ghost predicate NotDeclined(n: Node, u: PeerId) {
    n.using == u && u in n.known ==> !n.known[u].declined
  }

  /**
   * The guard on a choice looks at the permission, which a declining status leaves as it was;
   * and a declined friend request leaves the choice as it was.
   */
  ghost predicate DeclinedAndChosen(n: Node, e: Event, u: PeerId) {
    u in n.known &&
      if e.Choose? then e.peer == u && n.known[u].allowed && n.known[u].declined
      else e.Answer? && e.peer == u && e.response.declined && n.using == u
  }

  lemma NotDeclinedExactlyWhen(n: Node, e: Event, u: PeerId)
    requires Keyed(n.known) && u != "" && NotDeclined(n, u)
    ensures NotDeclined(Do(n, e), u) <==> !DeclinedAndChosen(n, e, u)
  {
    if e.Status? {
      StatusKeepsNotDeclined(n, e.peer, e.info, u);
    }
  }

  lemma StatusKeepsNotDeclined(n: Node, peer: PeerId, info: PeerStatusInfo, u: PeerId)
    requires Keyed(n.known) && u != "" && NotDeclined(n, u)
    ensures NotDeclined(ProcessStatus(n, peer, info), u)
  {
  }

  /** The property holds in every state of the history. */
  ghost predicate Throughout(n: Node, events: seq<Event>, holds: Node -> bool) {
    forall k :: 0 <= k <= |events| ==> holds(After(n, events[..k]))
  }

  /** No event of the history breaks it. */
  ghost predicate Never(n: Node, events: seq<Event>, breaks: (Node, Event) -> bool) {
    forall k :: 0 <= k < |events| ==> !breaks(After(n, events[..k]), events[k])
  }

  lemma AfterOneMore(n: Node, events: seq<Event>, k: nat)
    requires k < |events|
    ensures After(n, events[..k + 1]) == Do(After(n, events[..k]), events[k])
  {
    assert events[..k + 1][..k] == events[..k];
  }

  /** An event keeps the property exactly when it does not break it. */
  ghost predicate Exact(holds: Node -> bool, breaks: (Node, Event) -> bool) {
    forall m: Node, e: Event {:trigger breaks(m, e)} ::
      Keyed(m.known) && holds(m) ==> (holds(Do(m, e)) <==> !breaks(m, e))
  }

  lemma NextExact(n: Node, events: seq<Event>, k: nat, holds: Node -> bool, breaks: (Node, Event) -> bool)
    requires Keyed(n.known) && Exact(holds, breaks) && k < |events| && holds(After(n, events[..k]))
    ensures holds(After(n, events[..k + 1])) <==> !breaks(After(n, events[..k]), events[k])
  {
    AfterIsKeyed(n, events[..k]);
    AfterOneMore(n, events, k);
  }

  lemma {:induction false} HoldsUpTo(
    n: Node, events: seq<Event>, k: nat, holds: Node -> bool, breaks: (Node, Event) -> bool)
    requires Keyed(n.known) && holds(n) && Exact(holds, breaks) && Never(n, events, breaks) && k <= |events|
    ensures holds(After(n, events[..k]))
  {
    if k > 0 {
      HoldsUpTo(n, events, k - 1, holds, breaks);
      NextExact(n, events, k - 1, holds, breaks);
    }
  }

  /** What is exact for one event is exact for every history. */
  lemma ThroughoutExactlyWhen(n: Node, events: seq<Event>, holds: Node -> bool, breaks: (Node, Event) -> bool)
    requires Keyed(n.known) && holds(n) && Exact(holds, breaks)
    ensures Throughout(n, events, holds) <==> Never(n, events, breaks)
  {
    if Throughout(n, events, holds) {
      forall k | 0 <= k < |events|
        ensures !breaks(After(n, events[..k]), events[k])
      {
        NextExact(n, events, k, holds, breaks);
      }
    }
    if Never(n, events, breaks) {
      forall k | 0 <= k <= |events|
        ensures holds(After(n, events[..k]))
      {
        HoldsUpTo(n, events, k, holds, breaks);
      }
    }
  }

  /** The choice of `u` is backed by permission all along a history iff `u` is never added while chosen. */
  lemma AlwaysPermittedExactlyWhen(n: Node, events: seq<Event>, u: PeerId)
    requires Keyed(n.known) && u != "" && Permitted(n, u)
    ensures Throughout(n, events, m => Permitted(m, u)) <==> Never(n, events, (m, e) => AddedWhileChosen(m, e, u))
  {
    forall m: Node, e: Event | Keyed(m.known) && Permitted(m, u)
      ensures Permitted(Do(m, e), u) <==> !AddedWhileChosen(m, e, u)
    {
      PermittedExactlyWhen(m, e, u);
    }
    ThroughoutExactlyWhen(n, events, m => Permitted(m, u), (m, e) => AddedWhileChosen(m, e, u));
  }

  /** And a chosen peer has never declined us all along a history under this condition. */
  lemma NeverDeclinedExactlyWhen(n: Node, events: seq<Event>, u: PeerId)
    requires Keyed(n.known) && u != "" && NotDeclined(n, u)
    ensures Throughout(n, events, m => NotDeclined(m, u)) <==> Never(n, events, (m, e) => DeclinedAndChosen(m, e, u))
  {
    forall m: Node, e: Event | Keyed(m.known) && NotDeclined(m, u)
      ensures NotDeclined(Do(m, e), u) <==> !DeclinedAndChosen(m, e, u)
    {
      NotDeclinedExactlyWhen(m, e, u);
    }
    ThroughoutExactlyWhen(n, events, m => NotDeclined(m, u), (m, e) => DeclinedAndChosen(m, e, u));
  }

  lemma AfterThree(n: Node, e1: Event, e2: Event, e3: Event)
    ensures After(n, [e1, e2, e3]) == Do(Do(Do(n, e1), e2), e3)
  {
    var events := [e1, e2, e3];
    assert events[..0] == [] && events[..3] == events;
    AfterOneMore(n, events, 0);
    AfterOneMore(n, events, 1);
    AfterOneMore(n, events, 2);
  }

  /** Choosing, removing and adding a peer leaves it chosen without its permission. */
  lemma RemovedAndAddedAgain(n: Node, u: PeerId, name: string, alias: string)
    requires Keyed(n.known) && u != "" && u in n.known && n.known[u].allowed
    requires AddAllowed(RemovePeer(n, u), u, alias, NoIP)
    ensures var m := After(n, [Choose(u), Remove(u), Add(u, name, alias, false, NoIP)]);
            m.using == u && u in m.known && !Permitted(m, u)
  {
    AfterThree(n, Choose(u), Remove(u), Add(u, name, alias, false, NoIP));
    assert RemovePeer(ChooseProxy(n, u), u).known == RemovePeer(n, u).known;
  }

  /** A peer that granted permission and then declined can be chosen, and connections are proxied over it. */
  lemma DeclinedCanBeChosen(n: Node, u: PeerId, grant: PeerStatusInfo, refusal: PeerStatusInfo)
    requires Keyed(n.known) && u != "" && u in n.known && !grant.declined && grant.allow && refusal.declined
    ensures var m := After(n, [Status(u, grant), Status(u, refusal), Choose(u)]);
            m.using == u && u in m.known && m.known[u].allowed && !NotDeclined(m, u)
  {
    AfterThree(n, Status(u, grant), Status(u, refusal), Choose(u));
    StatusKeepsKeyed(n, u, grant);
  }

  datatype ProxyTarget = NoProxy | NotAllowed | Target(peer: KnownPeer)

  /** The check before a connection is proxied; it does not rely on the history. */
  method ProxyConn(n: Node) returns (t: ProxyTarget)
    requires Keyed(n.known)
    ensures t.Target? <==> n.using != "" && n.using in n.known && n.known[n.using].allowed
    ensures t.Target? ==> t.peer.peerID == n.using && t.peer.allowed
    ensures t.NoProxy? <==> n.using == ""
  {
    var usePeerID := n.using;
    if usePeerID == "" {
      return NoProxy;
    }
    var peer := GetPeer(n.known, usePeerID);
    if usePeerID !in n.known || !peer.allowed {
      return NotAllowed;
    }
    return Target(peer);
  }

  // ----- Without serialization

  /** The write of a settings change whose record was read before other events. */
  function WriteBack(n: Node, read: KnownPeer, alias: string, domain: string, allow: bool, ip: IPText): Node {
    var p := read.(alias := alias, domainName := domain, weAllow := allow, ip := ip);
    n.(known := n.known[p.peerID := p])
  }

  /** A write of a copy that carries the permission is harmless; another one harms if `u` is chosen. */
  lemma StaleWrite(n: Node, read: KnownPeer, alias: string, domain: string, allow: bool, ip: IPText, u: PeerId)
    requires read.peerID == u
    ensures Permitted(WriteBack(n, read, alias, domain, allow, ip), u) <==> read.allowed || n.using != u
  {
  }

  /** The settings change is harmless for `u`, whatever happens between its read and its write. */
  ghost predicate AlwaysHarmless(n: Node, u: PeerId, alias: string, domain: string, allow: bool, ip: IPText)
    requires u in n.known
  {
    forall between :: Permitted(WriteBack(After(n, between), n.known[u], alias, domain, allow, ip), u)
  }

  /** The user drops the choice, and then a status of `u` grants permission: `u` gets chosen. */
  ghost function Overtaking(u: PeerId, info: PeerStatusInfo): seq<Event> {
    [Choose(""), Status(u, info)]
  }

  lemma OvertakingChooses(n: Node, u: PeerId, info: PeerStatusInfo)
    requires Keyed(n.known) && u != "" && u in n.known && !info.declined && info.allow
    ensures After(n, Overtaking(u, info)).using == u && Permitted(After(n, Overtaking(u, info)), u)
  {
    var events := Overtaking(u, info);
    assert events[..1] == [Choose("")] && [Choose("")][..0] == [];
    var m := After(n, [Choose("")]);
    assert m == Do(After(n, []), Choose("")) == n.(using := "");
    assert After(n, events) == ProcessStatus(m, u, info);
  }

  /**
   * The exact condition for a settings change that reads its record before it has the lock: no
   * interleaving of other changes can make it break the permission if and only if the record
   * carried the permission when it was read.
   */
  lemma SettingsChangeSafeExactlyWhen(
    n: Node, u: PeerId, alias: string, domain: string, allow: bool, ip: IPText)
    requires Keyed(n.known) && u != "" && u in n.known
    ensures AlwaysHarmless(n, u, alias, domain, allow, ip) <==> n.known[u].allowed
  {
    if n.known[u].allowed {
      forall between
        ensures Permitted(WriteBack(After(n, between), n.known[u], alias, domain, allow, ip), u)
      {
        StaleWrite(After(n, between), n.known[u], alias, domain, allow, ip, u);
      }
    } else {
      var between := Overtaking(u, PeerStatusInfo("", false, true, ""));
      OvertakingChooses(n, u, PeerStatusInfo("", false, true, ""));
      StaleWrite(After(n, between), n.known[u], alias, domain, allow, ip, u);
    }
  }
}
