/**
 * What the user's actions lead to in the protocol: inviting and accepting can make two
 * strangers confirmed friends, a declined or removed peer is refused from then on and can
 * learn of it, and a change of settings reaches the other side.
 */
module Friendship {
  import opened Aliases
  import opened Blocking
  import opened Friends
  import opened NodeState
  import opened Peers
  import opened StatusExchange
  import opened StatusRuns
  import opened StatusTalks

  // ----- Reachability

  ghost predicate Leads(w: World, v: World) {
    exists run, steps :: IsTrace(run, steps) && run[0] == w && run[|steps|] == v
  }

  lemma Stay(w: World)
    ensures Leads(w, w)
  {
    assert IsTrace([w], []);
  }

  lemma Then(w: World, v: World, s: Step, e: Effect, u: World)
    requires Leads(w, v) && s.at in v.nodes && Steps(v.nodes[s.at], s, e) && Ready(v, s) && u == Done(v, s.at, e)
    ensures Leads(w, u)
  {
    var run, steps :| IsTrace(run, steps) && run[0] == w && run[|steps|] == v;
    var run', steps' := Extend(run, steps, s, e);
    assert IsTrace(run', steps') && run'[0] == w && run'[|steps'|] == u;
  }

  lemma AndThen(w: World, v: World, u: World)
    requires Leads(w, v) && Leads(v, u)
    ensures Leads(w, u)
  {
    var run1, steps1 :| IsTrace(run1, steps1) && run1[0] == w && run1[|steps1|] == v;
    var run2, steps2 :| IsTrace(run2, steps2) && run2[0] == v && run2[|steps2|] == u;
    var run, steps := Join(run1, steps1, run2, steps2);
    assert IsTrace(run, steps) && run[0] == w && run[|steps|] == u;
  }

  lemma Rest(run: seq<World>, steps: seq<Step>, k: nat)
    requires IsTrace(run, steps) && k <= |steps|
    ensures IsTrace(run[k..], steps[k..])
  {
    forall i {:trigger steps[k..][i]} | 0 <= i < |steps| - k
      ensures NextBy(run[k..][i], run[k..][i + 1], steps[k..][i])
    {
      assert NextBy(run[k + i], run[k + i + 1], steps[k + i]);
    }
  }

  lemma RestRefuses(run: seq<World>, steps: seq<Step>, k: nat, i: nat, at: PeerId, p: PeerId)
    requires IsTrace(run, steps) && k <= i < |steps| && NeverReadds(steps[k..], at, p)
    requires Blocks(run[k], at, p) && NoneOpen(run[k], at, p)
    ensures Enabled(run[i], steps[i]) && RefusesIn(run[i], steps[i], at, p)
  {
    Rest(run, steps, k);
    RunRefuses(run[k..], steps[k..], i - k, at, p);
  }

  // ----- Declining

  /** Declining blocks the peer, and opens no stream to it. */
  lemma DeclineBlocks(w: World, w': World, at: PeerId, p: PeerId)
    requires Named(w) && NextBy(w, w', Decline(at, p))
    ensures Blocks(w', at, p)
    ensures NoneOpen(w, at, p) ==> NoneOpen(w', at, p)
  {
    StepKeepsNamed(w, w', Decline(at, p));
  }

  /**
   * In every run, once `p` has been declined, all that is sent to it refuses it as long as it is
   * not added again, if no status stream of it was being served.
   */
  lemma DeclinedForGood(run: seq<World>, steps: seq<Step>, k: nat, i: nat, at: PeerId, p: PeerId)
    requires IsTrace(run, steps) && k < i < |steps| && Named(run[k]) && NoneOpen(run[k], at, p)
    requires steps[k] == Decline(at, p) && NeverReadds(steps[k + 1..], at, p)
    ensures Enabled(run[i], steps[i]) && RefusesIn(run[i], steps[i], at, p)
  {
    assert NextBy(run[k], run[k + 1], steps[k]);
    DeclineBlocks(run[k], run[k + 1], at, p);
    RestRefuses(run, steps, k + 1, i, at, p);
  }

  // ----- Removing

  /** Removing forgets the peer, and its block task blocks it. */
  lemma RemoveForgets(w: World, w': World, at: PeerId, p: PeerId)
    requires Named(w) && NextBy(w, w', Remove(at, p))
    ensures p !in w'.nodes[at].known
    ensures forall q :: q in w.nodes[at].known && q != p ==>
              q in w'.nodes[at].known && w'.nodes[at].known[q] == w.nodes[at].known[q]
  {
  }

  lemma BlockTaskBlocks(w: World, w': World, at: PeerId, p: PeerId)
    requires Named(w) && NextBy(w, w', Run(at, Block(at, p)))
    ensures Blocks(w', at, p)
    ensures NoneOpen(w, at, p) ==> NoneOpen(w', at, p)
  {
    StepKeepsNamed(w, w', Run(at, Block(at, p)));
  }

  /** In every run, once the block task of a removed peer has run, the peer is refused as above. */
  lemma RemovedForGood(run: seq<World>, steps: seq<Step>, k: nat, i: nat, at: PeerId, p: PeerId)
    requires IsTrace(run, steps) && k < i < |steps| && Named(run[k]) && NoneOpen(run[k], at, p)
    requires steps[k] == Run(at, Block(at, p)) && NeverReadds(steps[k + 1..], at, p)
    ensures Enabled(run[i], steps[i]) && RefusesIn(run[i], steps[i], at, p)
  {
    assert NextBy(run[k], run[k + 1], steps[k]);
    BlockTaskBlocks(run[k], run[k + 1], at, p);
    RestRefuses(run, steps, k + 1, i, at, p);
  }

  // ----- The refused peer can learn of it

  const REFUSAL := PeerStatusInfo("", true, false, "")

  /** An exchange with a blocked peer is pending. */
  ghost predicate Telling(w: World, at: PeerId, p: PeerId, record: KnownPeer) {
    && at != p && p != "" && at != "" && at in w.nodes && p in w.nodes
    && w.nodes[at].id == at && w.nodes[p].id == p && p in w.nodes[at].blocked
    && Exchange(at, p, record) in w.tasks
    && Keyed(w.nodes[p].known) && at in w.nodes[p].known && at !in w.nodes[p].blocked
  }

  /** The refusal is sent. */
  lemma RefusalIsSent(w: World, at: PeerId, p: PeerId, record: KnownPeer) returns (v: World)
    requires Telling(w, at, p, record)
    ensures Leads(w, v) && StatusReq(at, p, REFUSAL) in v.msgs && p in v.nodes && v.nodes[p] == w.nodes[p]
    ensures at in v.nodes && p !in v.nodes[at].ingoing
  {
    var n := w.nodes[at];
    var m := n.(ingoing := n.ingoing - {p});
    Stay(w);
    var e1 := Effect(m, {}, {ExchangeSend(at, p, record)});
    var u := Done(w, at, e1);
    Then(w, w, Run(at, Exchange(at, p, record)), e1, u);
    var e2 := Effect(m, {StatusReq(at, p, REFUSAL)}, {AwaitStatus(at, p, true)});
    v := Done(u, at, e2);
    Then(w, u, Run(at, ExchangeSend(at, p, record)), e2, v);
  }

  /** The other side gets it. */
  lemma RefusalArrives(w: World, at: PeerId, p: PeerId) returns (v: World)
    requires at in w.nodes && p in w.nodes && w.nodes[p].id == p
    requires at in w.nodes[p].known && at !in w.nodes[p].blocked && StatusReq(at, p, REFUSAL) in w.msgs
    ensures Leads(w, v) && Process(p, at, REFUSAL) in v.tasks
    ensures v.nodes == w.nodes[p := w.nodes[p].(outgoing := w.nodes[p].outgoing - {at})]
  {
    var x := w.nodes[p];
    var serve, ask := Serve(p, at, x.known[at], false), StatusReq(at, p, REFUSAL);
    Stay(w);
    var e1 := Effect(x, {}, {serve});
    var u := Done(w, p, e1);
    Then(w, w, OpenStatus(p, at), e1, u);
    var e2 := Effect(x.(outgoing := x.outgoing - {at}),
                     {StatusResp(p, at, CreatePeerInfo(x, x.known[at], false))}, {Process(p, at, REFUSAL)});
    v := Done(u, p, e2);
    Then(w, u, GetStatus(p, serve, ask), e2, v);
  }

  /** And processes it. */
  lemma RefusalIsHeard(w: World, at: PeerId, p: PeerId) returns (v: World)
    requires at != p && at in w.nodes && p in w.nodes && w.nodes[p].id == p
    requires Keyed(w.nodes[p].known) && at in w.nodes[p].known && at !in w.nodes[p].blocked
    requires StatusReq(at, p, REFUSAL) in w.msgs
    ensures Leads(w, v) && p in v.nodes && at in v.nodes[p].known && v.nodes[p].known[at].declined
    ensures at in v.nodes && v.nodes[at] == w.nodes[at]
  {
    var u := RefusalArrives(w, at, p);
    var e := Effect(ProcessStatus(u.nodes[p], at, REFUSAL), {}, {});
    v := Done(u, p, e);
    Then(w, u, Run(p, Process(p, at, REFUSAL)), e, v);
  }

  lemma RefusalIsLearned(w: World, at: PeerId, p: PeerId, record: KnownPeer) returns (v: World)
    requires Telling(w, at, p, record)
    ensures Leads(w, v) && p in v.nodes && at in v.nodes[p].known && v.nodes[p].known[at].declined
    ensures at in v.nodes && p !in v.nodes[at].ingoing
  {
    var u := RefusalIsSent(w, at, p, record);
    v := RefusalIsHeard(u, at, p);
    AndThen(w, u, v);
  }

  /** Two nodes of the world; `p` knows `at` and does not block it. */
  ghost predicate KnownBy(w: World, at: PeerId, p: PeerId) {
    && Named(w) && at != p && p != "" && at != "" && at in w.nodes && p in w.nodes
    && Keyed(w.nodes[p].known) && at in w.nodes[p].known && at !in w.nodes[p].blocked
  }

  /** Declining a request can lead to its sender knowing that it is declined, and ends the request. */
  lemma DeclineIsLearned(w: World, at: PeerId, p: PeerId) returns (w': World, v: World)
    requires KnownBy(w, at, p) && p in w.nodes[at].ingoing
    ensures NextBy(w, w', Decline(at, p)) && Leads(w', v)
    ensures p in v.nodes && at in v.nodes[p].known && v.nodes[p].known[at].declined
    ensures at in v.nodes && p !in v.nodes[at].ingoing
  {
    var n := w.nodes[at];
    var e := Effect(n.(blocked := n.blocked + {p}), {}, {Exchange(at, p, ZERO_PEER)});
    assert EffectOf(n, Decline(at, p)) == e;
    w' := Done(w, at, e);
    v := RefusalIsLearned(w', at, p, ZERO_PEER);
  }

  /** So can removing a friend. */
  lemma RemovalIsLearned(w: World, at: PeerId, p: PeerId) returns (w': World, v: World)
    requires KnownBy(w, at, p) && p in w.nodes[at].known
    ensures NextBy(w, w', Remove(at, p)) && Leads(w', v)
    ensures p in v.nodes && at in v.nodes[p].known && v.nodes[p].known[at].declined
  {
    var n := w.nodes[at];
    var m := n.(known := n.known - {p});
    var e := Effect(m, {}, {Block(at, p)});
    assert EffectOf(n, Remove(at, p)) == e;
    w' := Done(w, at, e);
    var e2 := Effect(m.(blocked := m.blocked + {p}), {}, {Exchange(at, p, ZERO_PEER)});
    var u := Done(w', at, e2);
    Stay(w');
    Then(w', w', Run(at, Block(at, p)), e2, u);
    v := RefusalIsLearned(u, at, p, ZERO_PEER);
    AndThen(w', u, v);
  }

  /** A blocked peer that asks for our status, known or not, can get a refusal. */
  lemma BlockedIsTold(w: World, at: PeerId, p: PeerId, info: PeerStatusInfo) returns (v: World)
    requires at in w.nodes && w.nodes[at].id == at && p in w.nodes[at].blocked && p in w.nodes
    requires StatusReq(p, at, info) in w.msgs
    ensures Leads(w, v) && StatusResp(at, p, REFUSAL) in v.msgs && w.tasks <= v.tasks
    ensures v.nodes == w.nodes[at := w.nodes[at].(outgoing := w.nodes[at].outgoing - {p})]
  {
    var n := w.nodes[at];
    var serve, ask := Serve(at, p, GetPeer(n.known, p), true), StatusReq(p, at, info);
    Stay(w);
    var e1 := Effect(n, {}, {serve});
    var u := Done(w, at, e1);
    Then(w, w, OpenStatus(at, p), e1, u);
    var e2 := Effect(n.(outgoing := n.outgoing - {p}), {StatusResp(at, p, REFUSAL)}, {});
    v := Done(u, at, e2);
    Then(w, u, GetStatus(at, serve, ask), e2, v);
  }

  /** And so learn that it is declined. */
  lemma AskingIsRefused(w: World, at: PeerId, p: PeerId, info: PeerStatusInfo) returns (v: World)
    requires at != p && at in w.nodes && w.nodes[at].id == at && p in w.nodes[at].blocked
    requires p in w.nodes && w.nodes[p].id == p && Keyed(w.nodes[p].known) && at in w.nodes[p].known
    requires StatusReq(p, at, info) in w.msgs && AwaitStatus(p, at, false) in w.tasks
    ensures Leads(w, v) && p in v.nodes && at in v.nodes[p].known && v.nodes[p].known[at].declined
  {
    var u := BlockedIsTold(w, at, p, info);
    var e := Effect(ProcessStatus(u.nodes[p], at, REFUSAL), {}, {});
    v := Done(u, p, e);
    Then(w, u, GetStatusResp(p, AwaitStatus(p, at, false), StatusResp(at, p, REFUSAL)), e, v);
  }

  /** The answer to a friend request is on its way, and says whether the sender is known and blocked. */
  lemma RequestIsAnswered(w: World, at: PeerId, p: PeerId, name: string) returns (v: World)
    requires at in w.nodes && w.nodes[at].id == at && AuthReq(p, at, name) in w.msgs
    requires p in w.nodes[at].known || p in w.nodes[at].blocked
    ensures Leads(w, v) && v.nodes == w.nodes && w.tasks <= v.tasks
    ensures AuthResp(at, p, AuthResponse(p in w.nodes[at].known, p in w.nodes[at].blocked)) in v.msgs
  {
    var n := w.nodes[at];
    Stay(w);
    var e := Effect(n, {AuthResp(at, p, AuthResponse(p in n.known, p in n.blocked))}, {});
    v := Done(w, at, e);
    Then(w, w, GetAuth(at, AuthReq(p, at, name)), e, v);
  }

  /** The sender can learn it: its request has ended, and a refusal is kept. */
  lemma AnswerIsLearned(w: World, at: PeerId, p: PeerId, name: string) returns (v: World)
    requires at in w.nodes && w.nodes[at].id == at && AuthReq(p, at, name) in w.msgs
    requires p in w.nodes && w.nodes[p].id == p && AwaitAuth(p, at) in w.tasks
    requires Keyed(w.nodes[p].known) && at in w.nodes[p].known
    requires p in w.nodes[at].known || p in w.nodes[at].blocked
    ensures Leads(w, v) && p in v.nodes && at !in v.nodes[p].outgoing && at in v.nodes[p].known
    ensures v.nodes[p].known[at].declined == (w.nodes[p].known[at].declined || p in w.nodes[at].blocked)
  {
    var u := RequestIsAnswered(w, at, p, name);
    var response := AuthResponse(p in w.nodes[at].known, p in w.nodes[at].blocked);
    var e := Effect(AuthAnswered(w.nodes[p], at, response), {}, {});
    v := Done(u, p, e);
    Then(w, u, GetAuthResp(p, AwaitAuth(p, at), AuthResp(at, p, response)), e, v);
  }

  // ----- Making friends

  /** Two strangers; the second does not block the first. */
  ghost predicate Strangers(w: World, a: PeerId, b: PeerId) {
    && Named(w) && a != b && a != "" && b != "" && a in w.nodes && b in w.nodes
    && Keyed(w.nodes[a].known) && Keyed(w.nodes[b].known)
    && b !in w.nodes[a].known && a !in w.nodes[b].known && a !in w.nodes[b].blocked
  }

  /** `a` has invited `b`, and its request is on its way. */
  lemma Invites(w: World, a: PeerId, b: PeerId) returns (v: World, x: Node)
    requires Strangers(w, a, b)
    ensures Leads(w, v) && v.nodes == w.nodes[a := x] && AuthReq(a, b, w.nodes[a].name) in v.msgs
    ensures x.id == a && x.name == w.nodes[a].name && Keyed(x.known) && b in x.known && b !in x.blocked
  {
    var n := w.nodes[a];
    var alias := SomeAlias(n, b);
    var m := AddPeer(n, b, "", alias, false, NoIP);
    Stay(w);
    var e1 := Effect(m, {}, {SendAuth(a, b, n.name)} + {Reread(a, b)});
    var u := Done(w, a, e1);
    Then(w, w, Invite(a, b, alias, NoIP), e1, u);
    x := m.(outgoing := m.outgoing[b := n.name]);
    var e2 := Effect(x, {AuthReq(a, b, n.name)}, {AwaitAuth(a, b)});
    v := Done(u, a, e2);
    Then(w, u, Run(a, SendAuth(a, b, n.name)), e2, v);
  }

  /** `b` gets the request, and keeps it. */
  lemma Keeps(w: World, a: PeerId, b: PeerId, name: string) returns (v: World)
    requires b in w.nodes && w.nodes[b].id == b && AuthReq(a, b, name) in w.msgs
    requires a !in w.nodes[b].known && a !in w.nodes[b].blocked && !w.nodes[b].autoAccept
    ensures Leads(w, v) && v.nodes == w.nodes[b := w.nodes[b].(ingoing := w.nodes[b].ingoing[a := name])]
  {
    var n := w.nodes[b];
    Stay(w);
    var e := Effect(n.(ingoing := n.ingoing[a := name]), {AuthResp(b, a, AuthResponse(false, false))}, {});
    v := Done(w, b, e);
    Then(w, w, GetAuth(b, AuthReq(a, b, name)), e, v);
  }

  /** Its user accepts it. */
  lemma Accepts(w: World, a: PeerId, b: PeerId, name: string) returns (v: World, y: Node)
    requires b in w.nodes && w.nodes[b].id == b && AuthReq(a, b, name) in w.msgs && a != b && Keyed(w.nodes[b].known)
    requires a !in w.nodes[b].known && a !in w.nodes[b].blocked && !w.nodes[b].autoAccept
    ensures Leads(w, v) && v.nodes == w.nodes[b := y] && Holds(y, b, a, name)
  {
    var u := Keeps(w, a, b, name);
    var m := u.nodes[b];
    var alias := SomeAlias(m, a);
    y := AddPeer(m, a, name, alias, true, NoIP);
    var e := Effect(y, {}, {} + {Reread(b, a)});
    v := Done(u, b, e);
    Then(w, u, Accept(b, a, alias, NoIP), e, v);
  }

  /** The node holds `a` as a confirmed friend of that name. */
  ghost predicate Holds(y: Node, b: PeerId, a: PeerId, name: string) {
    y.id == b && Keyed(y.known) && a in y.known && a !in y.blocked && y.known[a].confirmed && y.known[a].name == name
  }

  /** Or `b` gets the request, and is to accept it by itself. */
  lemma Plans(w: World, a: PeerId, b: PeerId, name: string) returns (v: World)
    requires b in w.nodes && w.nodes[b].id == b && AuthReq(a, b, name) in w.msgs
    requires a !in w.nodes[b].known && a !in w.nodes[b].blocked && w.nodes[b].autoAccept
    ensures Leads(w, v) && v.nodes == w.nodes && AutoAccept(b, a, name) in v.tasks
  {
    Stay(w);
    var e := Effect(w.nodes[b], {AuthResp(b, a, AuthResponse(false, false))}, {AutoAccept(b, a, name)});
    v := Done(w, b, e);
    Then(w, w, GetAuth(b, AuthReq(a, b, name)), e, v);
  }

  /** It does, if the alias made from the name is still free once trimmed. */
  lemma AcceptsByItself(w: World, a: PeerId, b: PeerId, name: string) returns (v: World, y: Node)
    requires b in w.nodes && w.nodes[b].id == b && AutoAccept(b, a, name) in w.tasks && Keyed(w.nodes[b].known)
    requires a !in w.nodes[b].known && AliasFree(w.nodes[b].known, "", TrimSpace(AliasFor(w.nodes[b], name)))
    ensures Leads(w, v) && v.nodes == w.nodes[b := y] && Holds(y, b, a, name)
  {
    var n := w.nodes[b];
    Stay(w);
    y := AddPeer(n, a, name, AliasFor(n, name), true, NoIP);
    var e := Effect(y, {}, {} + {Reread(b, a)});
    v := Done(w, b, e);
    Then(w, w, Run(b, AutoAccept(b, a, name)), e, v);
  }

  /** The alias that automatic acceptance makes from a name. */
  function AliasFor(n: Node, name: string): string {
    GenAlias(name, "", AliasesOf(n.known))
  }

  /** After an exchange the two are settled friends. */
  lemma FriendsSettle(w: World, a: Node, b: Node) returns (v: World, x: Node, y: Node)
    requires Friendly(a, b) && At(w, a, b)
    ensures Leads(w, v) && v.nodes == w.nodes[a.id := x][b.id := y] && x.id == a.id && y.id == b.id && Settled(x, y)
    ensures x.known[b.id].weAllow == a.known[b.id].weAllow && y.known[a.id].weAllow == b.known[a.id].weAllow
    ensures y.known[a.id].name == a.name && y.known[a.id].reportedUsing == a.using
  {
    var run, steps := ExchangeIsARun(w, a, b);
    OneExchangeConverges(a, b);
    v, x, y := run[|steps|], Exchanged(a, b).0, Exchanged(a, b).1;
    assert IsTrace(run, steps) && run[0] == w && run[|steps|] == v;
  }

  /**
   * Between any two strangers, inviting and accepting can end in friendship: both confirmed,
   * neither declined, agreeing on names and exit-node permissions, and no other node changed.
   */
  lemma StrangersCanBecomeFriends(w: World, a: PeerId, b: PeerId) returns (v: World, x: Node, y: Node)
    requires Strangers(w, a, b) && !w.nodes[b].autoAccept
    ensures Leads(w, v) && v.nodes == w.nodes[a := x][b := y] && x.id == a && y.id == b && Settled(x, y)
  {
    var w1, x1 := Invites(w, a, b);
    var w2, y1 := Accepts(w1, a, b, w.nodes[a].name);
    AndThen(w, w1, w2);
    v, x, y := FriendsSettle(w2, x1, y1);
    AndThen(w, w2, v);
  }

  /** So can an invitation alone, if the other side accepts automatically and finds an alias. */
  lemma StrangersCanBecomeFriendsByThemselves(w: World, a: PeerId, b: PeerId) returns (v: World, x: Node, y: Node)
    requires Strangers(w, a, b) && w.nodes[b].autoAccept
    requires AliasFree(w.nodes[b].known, "", TrimSpace(AliasFor(w.nodes[b], w.nodes[a].name)))
    ensures Leads(w, v) && v.nodes == w.nodes[a := x][b := y] && x.id == a && y.id == b && Settled(x, y)
  {
    var w1, x1 := Invites(w, a, b);
    var w2 := Plans(w1, a, b, w.nodes[a].name);
    AndThen(w, w1, w2);
    var w3, y1 := AcceptsByItself(w2, a, b, w.nodes[a].name);
    AndThen(w, w2, w3);
    v, x, y := FriendsSettle(w3, x1, y1);
    AndThen(w, w3, v);
  }

  // ----- Automatic acceptance

  /** Automatic acceptance adds a stranger exactly when the alias made from its name is free once trimmed. */
  lemma AutoAcceptExactlyWhen(w: World, w': World, at: PeerId, p: PeerId, name: string)
    requires Named(w) && NextBy(w, w', Run(at, AutoAccept(at, p, name))) && p !in w.nodes[at].known
    ensures p in w'.nodes[at].known <==>
              AliasFree(w.nodes[at].known, "", TrimSpace(AliasFor(w.nodes[at], name)))
  {
  }

  /** A name that differs from an alias in use only by white space is not accepted. */
  lemma SpacedNameIsNotAccepted(w: World, w': World, at: PeerId, p: PeerId, q: PeerId)
    requires Named(w) && NextBy(w, w', Run(at, AutoAccept(at, p, " bob"))) && p !in w.nodes[at].known
    requires q in w.nodes[at].known && w.nodes[at].known[q].peerID != "" && w.nodes[at].known[q].alias == "bob"
    requires forall id :: id in w.nodes[at].known ==> w.nodes[at].known[id].alias != " bob"
    ensures p !in w'.nodes[at].known
  {
    AutoAcceptExactlyWhen(w, w', at, p, " bob");
    assert " bob" !in AliasesOf(w.nodes[at].known);
    assert " bob"[1..] == "bob";
    assert TrimSpace(" bob") == "bob";
  }

  // ----- Settings reach the other side

  /** An allowed change of settings, as a step. */
  lemma Changes(w: World, a: Node, b: Node, alias: string, domain: string, allow: bool, ip: IPText)
    returns (w': World, m: Node)
    requires Friendly(a, b) && At(w, a, b) && UpdateAllowed(a, b.id, alias, ip)
    ensures NextBy(w, w', Update(a.id, b.id, alias, domain, allow, ip))
    ensures m.id == a.id && Friendly(m, b) && At(w', m, b) && m.known[b.id].weAllow == allow
  {
    m := UpdatePeerSettings(a, b.id, alias, domain, allow, ip);
    var e := Effect(m, {}, {Exchange(a.id, b.id, GetPeer(m.known, b.id))});
    assert EffectOf(a, Update(a.id, b.id, alias, domain, allow, ip)) == e;
    w' := Done(w, a.id, e);
  }

  /** After an allowed change of settings, an exchange can tell the other side what was set. */
  lemma SettingsReach(w: World, a: Node, b: Node, alias: string, domain: string, allow: bool, ip: IPText)
    returns (w': World, v: World)
    requires Friendly(a, b) && At(w, a, b) && UpdateAllowed(a, b.id, alias, ip)
    ensures NextBy(w, w', Update(a.id, b.id, alias, domain, allow, ip)) && Leads(w', v)
    ensures b.id in v.nodes && a.id in v.nodes[b.id].known && v.nodes[b.id].known[a.id].allowed == allow
    ensures a.id in v.nodes && b.id in v.nodes[a.id].known && v.nodes[a.id].known[b.id].weAllow == allow
  {
    var m, x, y;
    w', m := Changes(w, a, b, alias, domain, allow, ip);
    v, x, y := FriendsSettle(w', m, b);
  }

  /** A node that the user gives a name and a policy has them, and its friends can learn the name. */
  lemma NameReaches(w: World, a: Node, b: Node, name: string, auto: bool) returns (w': World, v: World)
    requires Friendly(a, b) && At(w, a, b)
    ensures NextBy(w, w', Configure(a.id, name, auto)) && Leads(w', v)
    ensures a.id in w'.nodes && w'.nodes[a.id].autoAccept == auto
    ensures b.id in v.nodes && a.id in v.nodes[b.id].known && v.nodes[b.id].known[a.id].name == name
  {
    var m := a.(name := name, autoAccept := auto);
    w' := Done(w, a.id, Effect(m, {}, {}));
    assert EffectOf(a, Configure(a.id, name, auto)) == Effect(m, {}, {});
    var x, y;
    v, x, y := FriendsSettle(w', m, b);
  }

  /** The choice of an exit node is made exactly when it is none or a peer that allows it ... */
  lemma ChosenExactlyWhen(w: World, w': World, at: PeerId, u: PeerId)
    requires NextBy(w, w', Choose(at, u)) && w.nodes[at].using != u
    ensures w'.nodes[at].using == u <==> u == "" || (u in w.nodes[at].known && w.nodes[at].known[u].allowed)
    ensures w'.nodes[at].using == u || w'.nodes[at].using == w.nodes[at].using
    ensures w'.nodes[at] == w.nodes[at].(using := w'.nodes[at].using)
  {
  }

  /** ... and reported to friends. */
  lemma ChoiceReaches(w: World, a: Node, b: Node, u: PeerId) returns (w': World, v: World)
    requires Friendly(a, b) && At(w, a, b) && (u == "" || (u in a.known && a.known[u].allowed))
    ensures NextBy(w, w', Choose(a.id, u)) && Leads(w', v)
    ensures b.id in v.nodes && a.id in v.nodes[b.id].known && v.nodes[b.id].known[a.id].reportedUsing == u
  {
    var m := a.(using := u);
    w' := Done(w, a.id, Effect(m, {}, {}));
    assert EffectOf(a, Choose(a.id, u)) == Effect(m, {}, {});
    var x, y;
    v, x, y := FriendsSettle(w', m, b);
  }
}
