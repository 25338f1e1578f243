/**
 * Convergence of the status exchange: `ExchangeNewStatusInfo` on one side and
 * `StatusStreamHandler` on the other (service/auth_status.go), run to completion with no other
 * change in between.
 */
module StatusExchange {
  import opened AddressPool
  import opened Aliases
  import opened NodeState
  import opened Peers

  /** The two nodes know each other and neither blocks the other. */
  ghost predicate Friendly(a: Node, b: Node) {
    && a.id != b.id && a.id != "" && b.id != ""
    && Keyed(a.known) && Keyed(b.known)
    && b.id in a.known && a.id in b.known && b.id !in a.blocked && a.id !in b.blocked
  }

  /** The initiator once it has dropped the pending request, and what it sends. */
  function Asking(a: Node, b: PeerId): Node {
    a.(ingoing := a.ingoing - {b})
  }

  function Request(a: Node, b: PeerId): PeerStatusInfo {
    CreatePeerInfo(Asking(a, b), GetPeer(a.known, b), b in a.blocked)
  }

  /** The other side once it has the request, and what it answers. */
  function Serving(b: Node, a: PeerId): Node {
    b.(outgoing := b.outgoing - {a})
  }

  function Reply(b: Node, a: PeerId): PeerStatusInfo {
    CreatePeerInfo(b, GetPeer(b.known, a), a in b.blocked)
  }

  /** One complete exchange started by `a`: the nodes afterwards. */
  function Exchanged(a: Node, b: Node): (Node, Node) {
    (ProcessStatus(Asking(a, b.id), b.id, Reply(b, a.id)), ProcessStatus(Serving(b, a.id), a.id, Request(a, b.id)))
  }

  /** What `x` should hold about `y` once they have talked. */
  ghost predicate Agrees(x: Node, y: Node) {
    && y.id in x.known && x.id in y.known
    && x.known[y.id].confirmed && !x.known[y.id].declined
    && x.known[y.id].name == y.name
    && x.known[y.id].allowed == y.known[x.id].weAllow
  }

  /** The exit-node choice of `x` needs no change on account of `y`. */
  ghost predicate ChoiceSettled(x: Node, y: PeerId) {
    y in x.known && UsingAfter(x.using, x.known[y]) == x.using
  }

  /** The record of `y` once `x` has processed a status of it: five fields are `y`'s, two may be filled in. */
  function Learned(x: Node, y: Node): KnownPeer
    requires y.id in x.known && x.id in y.known
  {
    var was := x.known[y.id];
    was.(name := y.name, confirmed := true, declined := false,
         allowed := y.known[x.id].weAllow, reportedUsing := y.using,
         alias := if was.alias == "" then GenAlias(y.name, "", AliasesOf(x.known)) else was.alias,
         domainName := if was.domainName != "" then was.domainName
                       else TrimDomainName(if was.alias != "" then was.alias else y.name))
  }

  lemma StatusSettles(x: Node, y: PeerId, info: PeerStatusInfo)
    requires Keyed(x.known) && y in x.known && y != "" && !info.declined
    ensures var x', p := ProcessStatus(x, y, info), Accepting(x.known, x.known[y], info);
            && x' == x.(known := x.known[y := p], using := UsingAfter(x.using, p))
            && Keyed(x'.known) && p.alias != "" && ChoiceSettled(x', y)
            && (ChoiceSettled(x, y) && x.known[y].allowed == info.allow ==> x'.using == x.using)
  {
  }

  function CurrentStatus(x: Node, y: PeerId): PeerStatusInfo
    requires y in x.known
  {
    PeerStatusInfo(x.name, false, x.known[y].weAllow, x.using)
  }

  /** Processing the current status of `y` gives exactly the learned record. */
  lemma LearnsAll(x: Node, y: Node)
    requires Keyed(x.known) && y.id in x.known && y.id != "" && x.id in y.known
    ensures var x' := ProcessStatus(x, y.id, CurrentStatus(y, x.id));
            && x' == x.(known := x.known[y.id := Learned(x, y)], using := UsingAfter(x.using, Learned(x, y)))
            && Keyed(x'.known) && Learned(x, y).alias != "" && ChoiceSettled(x', y.id)
  {
    StatusSettles(x, y.id, CurrentStatus(y, x.id));
    assert Accepting(x.known, x.known[y.id], CurrentStatus(y, x.id)) == Learned(x, y);
  }

  /**
   * One exchange between friends leaves both sides confirmed, not declined, and agreeing on
   * name and exit-node permission; the exact new states say that nothing else changed.
   */
  lemma OneExchangeConverges(a: Node, b: Node)
    requires Friendly(a, b)
    ensures var (a', b') := Exchanged(a, b);
            && Settled(a', b')
            && a' == a.(ingoing := a.ingoing - {b.id}, known := a.known[b.id := Learned(a, b)],
                        using := UsingAfter(a.using, Learned(a, b)))
            && b' == b.(outgoing := b.outgoing - {a.id}, known := b.known[a.id := Learned(b, a)],
                        using := UsingAfter(b.using, Learned(b, a)))
  {
    assert Reply(b, a.id) == CurrentStatus(b, a.id) && Request(a, b.id) == CurrentStatus(a, b.id);
    LearnsAll(Asking(a, b.id), b);
    LearnsAll(Serving(b, a.id), a);
  }

  ghost predicate Settled(a: Node, b: Node) {
    && Friendly(a, b) && Agrees(a, b) && Agrees(b, a)
    && ChoiceSettled(a, b.id) && ChoiceSettled(b, a.id)
    && a.known[b.id].alias != "" && b.known[a.id].alias != ""
  }

  /**
   * A further exchange, whichever side starts it, keeps the agreement and both choices, and
   * makes each side's report of the other's exit node correct.
   */
  lemma SecondExchangeReports(a: Node, b: Node)
    requires Settled(a, b)
    ensures var (a', b') := Exchanged(a, b);
            && Settled(a', b')
            && a'.using == a.using && b'.using == b.using
            && a'.known[b.id].reportedUsing == b'.using && b'.known[a.id].reportedUsing == a'.using
  {
    OneExchangeConverges(a, b);
    StatusSettles(Asking(a, b.id), b.id, Reply(b, a.id));
    StatusSettles(Serving(b, a.id), a.id, Request(a, b.id));
  }

  lemma AcceptingTwice(known: Registry, later: Registry, peer: KnownPeer, info: PeerStatusInfo)
    requires peer.alias != ""
    ensures var p := Accepting(known, peer, info); Accepting(later, p, info) == p
  {
  }

  lemma RepeatedStatus(x: Node, y: PeerId, info: PeerStatusInfo)
    requires Keyed(x.known) && y in x.known && y != "" && !info.declined && x.known[y].alias != ""
    ensures var x' := ProcessStatus(x, y, info); ProcessStatus(x', y, info) == x'
  {
    var x' := ProcessStatus(x, y, info);
    var p := Accepting(x.known, x.known[y], info);
    assert x'.known == x.known[y := p] && p.peerID == y;
    AcceptingTwice(x.known, x'.known, x.known[y], info);
    assert x'.known[y := p] == x'.known;
  }

  /** The messages of a settled pair no longer change. */
  lemma MessagesSettle(a: Node, b: Node)
    requires Settled(a, b)
    ensures var (a', b') := Exchanged(a, b);
            && Asking(a', b.id) == a' && Serving(b', a.id) == b'
            && Request(a', b.id) == Request(a, b.id) && Reply(b', a.id) == Reply(b, a.id)
  {
    OneExchangeConverges(a, b);
    SecondExchangeReports(a, b);
    var (a', b') := Exchanged(a, b);
    assert a'.ingoing - {b.id} == a'.ingoing && b'.outgoing - {a.id} == b'.outgoing;
  }

  /** From then on the exchange is a fixed point of both nodes. */
  lemma ThirdExchangeChangesNothing(a: Node, b: Node)
    requires Settled(a, b)
    ensures var (a', b') := Exchanged(a, b); Exchanged(a', b') == (a', b')
  {
    MessagesSettle(a, b);
    RepeatedStatus(Asking(a, b.id), b.id, Reply(b, a.id));
    RepeatedStatus(Serving(b, a.id), a.id, Request(a, b.id));
  }
}
