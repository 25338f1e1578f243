/**
 * Mutual consent: in every run of the friend protocol, a peer that a node regards as confirmed
 * has that node among its own known peers, or had it at some earlier moment of the run.
 */
module Consent {
  import opened Aliases
  import opened Friends
  import opened NodeState
  import opened Peers

  /** Pairs `(b, a)`: node `b` knows `a`. */
  type Pairs = set<(PeerId, PeerId)>

  ghost function KnownPairs(w: World): Pairs {
    set b, a | b in w.nodes && a in w.nodes[b].known :: (b, a)
  }

  /** Who has known whom during the run. */
  ghost function Ever(run: seq<World>): Pairs {
    if run == [] then {} else Ever(run[..|run| - 1]) + KnownPairs(run[|run| - 1])
  }

  // ----- The invariant, piece by piece

  ghost predicate NodeOk(n: Node, ever: Pairs) {
    && Keyed(n.known) && n.id != ""
    && (forall b :: b in n.known && b != "" ==> (n.id, b) in ever)
    && (forall b :: b in n.known && b != "" && n.known[b].confirmed ==> (b, n.id) in ever)
    && (forall b :: b in n.ingoing ==> b != "" && (b, n.id) in ever)
    && (forall b :: b in n.outgoing && b != "" ==> (n.id, b) in ever)
  }

  ghost predicate MsgOk(m: Message, ever: Pairs) {
    && m.src != ""
    && match m
       case AuthReq(src, dst, _) => dst != "" ==> (src, dst) in ever
       case AuthResp(_, _, _) => true
       case StatusReq(src, dst, info) => !info.declined && dst != "" ==> (src, dst) in ever
       case StatusResp(src, dst, info) => !info.declined && dst != "" ==> (src, dst) in ever
  }

  /** A status can only go out unrefused to a peer that is known, was known, or is blocked still. */
  ghost predicate Entitled(nodes: map<PeerId, Node>, at: PeerId, peer: PeerId, ever: Pairs) {
    peer != "" ==> (at, peer) in ever || (at in nodes && peer in nodes[at].blocked)
  }

  ghost predicate TaskOk(t: Task, nodes: map<PeerId, Node>, ever: Pairs) {
    match t
    case SendAuth(at, peer, _) => peer != "" ==> (at, peer) in ever
    case AwaitAuth(_, _) => true
    case AutoAccept(at, peer, _) => peer != "" && (peer, at) in ever
    case Block(_, _) => true
    case Reread(at, peer) => Entitled(nodes, at, peer, ever)
    case Exchange(at, peer, _) => Entitled(nodes, at, peer, ever)
    case ExchangeSend(at, peer, _) => Entitled(nodes, at, peer, ever)
    case AwaitStatus(_, _, _) => true
    case Serve(at, peer, _, blocked) => !blocked && peer != "" ==> (at, peer) in ever
    case Process(at, peer, info) => !info.declined && peer != "" ==> (peer, at) in ever
  }

  ghost predicate Inv(w: World, ever: Pairs) {
    && (forall id :: id in w.nodes ==> w.nodes[id].id == id && NodeOk(w.nodes[id], ever))
    && (forall m :: m in w.msgs ==> MsgOk(m, ever))
    && (forall t :: t in w.tasks ==> TaskOk(t, w.nodes, ever))
  }

  // ----- One step keeps it

  ghost function OwnPairs(n: Node): Pairs {
    set a | a in n.known :: (n.id, a)
  }

  /** An effect of node `n` is in order: its state, its messages, its tasks, its blocks. */
  ghost predicate EffectOk(n: Node, e: Effect, ever: Pairs) {
    && e.node.id == n.id && NodeOk(e.node, ever)
    && (forall m :: m in e.sent ==> MsgOk(m, ever))
    && (forall t :: t in e.spawned ==> t.at == n.id && TaskOk(t, map[n.id := e.node], ever))
    && (forall b :: b in n.blocked && b != "" ==> b in e.node.blocked || (n.id, b) in ever)
  }

  lemma AddingOk(n: Node, peer: PeerId, name: string, alias: string, confirmed: bool, ip: IPText, ever: Pairs)
    requires NodeOk(n, ever) && peer != "" && (confirmed ==> (peer, n.id) in ever)
    ensures var e := Adding(n, peer, name, alias, confirmed, ip);
            EffectOk(n, e, ever + OwnPairs(e.node))
  {
    var e := Adding(n, peer, name, alias, confirmed, ip);
    if AddAllowed(n, peer, alias, ip) {
      assert peer in e.node.known && (n.id, peer) in OwnPairs(e.node);
    }
  }

  lemma ProcessOk(n: Node, peer: PeerId, info: PeerStatusInfo, ever: Pairs)
    requires NodeOk(n, ever) && (!info.declined && peer != "" ==> (peer, n.id) in ever)
    ensures NodeOk(ProcessStatus(n, peer, info), ever)
    ensures ProcessStatus(n, peer, info).blocked == n.blocked
  {
  }

  /** Knowing more pairs does not disturb an effect. */
  lemma EffectStaysOk(n: Node, e: Effect, ever: Pairs, more: Pairs)
    requires EffectOk(n, e, ever) && ever <= more
    ensures EffectOk(n, e, more)
  {
    forall t | t in e.spawned
      ensures TaskOk(t, map[n.id := e.node], more)
    {
      TaskStaysOk(t, map[n.id := e.node], e.node, ever, more);
      assert map[n.id := e.node][e.node.id := e.node] == map[n.id := e.node];
    }
  }

  lemma RunTaskOk(n: Node, t: Task, ever: Pairs)
    requires NodeOk(n, ever) && Runs(t) && t.at == n.id && TaskOk(t, map[n.id := n], ever) && !t.AutoAccept?
    ensures EffectOk(n, RunTask(n, t), ever)
  {
    if t.Process? {
      ProcessOk(n, t.peer, t.info, ever);
    } else if t.Reread? {
      assert TaskOk(Exchange(t.at, t.peer, GetPeer(n.known, t.peer)), map[n.id := n], ever);
    } else if t.Exchange? || t.ExchangeSend? {
      ExchangeTaskOk(n, t, ever);
    }
  }

  lemma ExchangeTaskOk(n: Node, t: Task, ever: Pairs)
    requires NodeOk(n, ever) && t.at == n.id && TaskOk(t, map[n.id := n], ever) && (t.Exchange? || t.ExchangeSend?)
    ensures EffectOk(n, RunTask(n, t), ever)
  {
  }

  // ----- The other phases, on one node

  lemma UpdateOk(n: Node, peer: PeerId, alias: string, domain: string, allow: bool, ip: IPText, ever: Pairs)
    requires NodeOk(n, ever)
    ensures NodeOk(UpdatePeerSettings(n, peer, alias, domain, allow, ip), ever)
  {
  }

  lemma AnsweredOk(n: Node, peer: PeerId, response: AuthResponse, ever: Pairs)
    requires NodeOk(n, ever)
    ensures NodeOk(AuthAnswered(n, peer, response), ever)
  {
  }

  /** What a step takes from the rest of the world is in order. */
  ghost predicate InputOk(n: Node, s: Step, ever: Pairs) {
    && (s.Run? || s.GetStatus? ==> TaskOk(s.task, map[n.id := n], ever))
    && (s.GetAuth? || s.GetStatus? || s.GetStatusResp? ==> MsgOk(s.msg, ever))
  }

  lemma EnabledInput(w: World, s: Step, ever: Pairs)
    requires Inv(w, ever) && Enabled(w, s)
    ensures InputOk(w.nodes[s.at], s, ever)
  {
    if s.Run? || s.GetStatus? {
      assert TaskOk(s.task, w.nodes, ever);
    }
  }

  lemma StepEffectOk(n: Node, s: Step, ever: Pairs)
    requires NodeOk(n, ever) && Applies(n, s) && InputOk(n, s, ever)
    ensures var e := EffectOf(n, s); EffectOk(n, e, ever + OwnPairs(e.node))
  {
    var e := EffectOf(n, s);
    if s.Invite? {
      AddingOk(n, s.peer, "", s.alias, false, s.ip, ever);
    } else if s.Accept? {
      AddingOk(n, s.peer, n.ingoing[s.peer], s.alias, true, s.ip, ever);
    } else if s.Run? && s.task.AutoAccept? {
      AddingOk(n, s.task.peer, s.task.name, GenAlias(s.task.name, "", AliasesOf(n.known)), true, NoIP, ever);
    } else {
      PlainEffectOk(n, s, ever);
      EffectStaysOk(n, e, ever, ever + OwnPairs(e.node));
    }
  }

  lemma PlainEffectOk(n: Node, s: Step, ever: Pairs)
    requires NodeOk(n, ever) && Applies(n, s) && InputOk(n, s, ever)
    requires !s.Invite? && !s.Accept? && !(s.Run? && s.task.AutoAccept?)
    ensures EffectOk(n, EffectOf(n, s), ever)
  {
    if s.Run? {
      RunTaskOk(n, s.task, ever);
    } else if s.GetAuth? || s.GetAuthResp? {
      RequestOk(n, s, ever);
    } else if s.GetStatus? || s.GetStatusResp? {
      StatusOk(n, s, ever);
    } else if s.Update? {
      UpdateOk(n, s.peer, s.alias, s.domain, s.allow, s.ip, ever);
    } else if s.Decline? || s.Remove? || s.Choose? || s.Configure? {
      UserOk(n, s, ever);
    } else {
      BackgroundOk(n, s, ever);
    }
  }

  lemma RequestOk(n: Node, s: Step, ever: Pairs)
    requires NodeOk(n, ever) && Applies(n, s) && InputOk(n, s, ever) && (s.GetAuth? || s.GetAuthResp?)
    ensures EffectOk(n, EffectOf(n, s), ever)
  {
    if s.GetAuthResp? {
      AnsweredOk(n, s.msg.src, s.msg.response, ever);
    }
  }

  lemma StatusOk(n: Node, s: Step, ever: Pairs)
    requires NodeOk(n, ever) && Applies(n, s) && InputOk(n, s, ever) && (s.GetStatus? || s.GetStatusResp?)
    ensures EffectOk(n, EffectOf(n, s), ever)
  {
    if s.GetStatusResp? {
      ProcessOk(n, s.msg.src, s.msg.info, ever);
    }
  }

  lemma UserOk(n: Node, s: Step, ever: Pairs)
    requires NodeOk(n, ever) && Applies(n, s) && (s.Decline? || s.Remove? || s.Choose? || s.Configure?)
    ensures EffectOk(n, EffectOf(n, s), ever)
  {
  }

  lemma BackgroundOk(n: Node, s: Step, ever: Pairs)
    requires NodeOk(n, ever) && Applies(n, s) && (s.Refresh? || s.Retry? || s.Restarted? || s.OpenStatus?)
    ensures EffectOk(n, EffectOf(n, s), ever)
  {
  }

  /** Knowing more pairs, or another node's move, does not disturb a task. */
  lemma TaskStaysOk(t: Task, nodes: map<PeerId, Node>, n: Node, ever: Pairs, more: Pairs)
    requires TaskOk(t, nodes, ever) && ever <= more && n.id in nodes
    requires forall b :: b in nodes[n.id].blocked && b != "" ==> b in n.blocked || (n.id, b) in more
    ensures TaskOk(t, nodes[n.id := n], more)
  {
  }

  lemma NewTaskOk(t: Task, nodes: map<PeerId, Node>, n: Node, ever: Pairs, more: Pairs)
    requires t.at == n.id && TaskOk(t, map[n.id := n], ever) && ever <= more
    ensures TaskOk(t, nodes[n.id := n], more)
  {
  }

  lemma NextKeepsInv(w: World, w': World, s: Step, ever: Pairs)
    requires Inv(w, ever) && NextBy(w, w', s)
    ensures Inv(w', ever + KnownPairs(w'))
  {
    EnabledInput(w, s, ever);
    StepEffectOk(w.nodes[s.at], s, ever);
    var e := EffectOf(w.nodes[s.at], s);
    var ever', more := ever + OwnPairs(e.node), ever + KnownPairs(w');
    OwnAreKnown(w', s.at);
    assert ever' <= more;
    forall id | id in w'.nodes
      ensures w'.nodes[id].id == id && NodeOk(w'.nodes[id], more)
    {
      NodeStaysOk(w'.nodes[id], if id == s.at then ever' else ever, more);
    }
    forall m | m in w'.msgs
      ensures MsgOk(m, more)
    {
      assert m in w.msgs || m in e.sent;
    }
    TasksStayOk(w, w', s.at, e, ever, ever', more);
  }

  /** Pending tasks are left alone, and new ones are in order. */
  lemma TasksStayOk(w: World, w': World, at: PeerId, e: Effect, ever: Pairs, ever': Pairs, more: Pairs)
    requires Inv(w, ever) && at in w.nodes && EffectOk(w.nodes[at], e, ever') && ever <= ever' <= more
    requires w'.nodes == w.nodes[at := e.node] && w'.tasks <= w.tasks + e.spawned
    ensures forall t :: t in w'.tasks ==> TaskOk(t, w'.nodes, more)
  {
    forall t | t in w'.tasks
      ensures TaskOk(t, w'.nodes, more)
    {
      if t in w.tasks {
        TaskStaysOk(t, w.nodes, e.node, ever, more);
      } else {
        NewTaskOk(t, w.nodes, e.node, ever', more);
      }
    }
  }

  lemma OwnAreKnown(w: World, id: PeerId)
    requires id in w.nodes && w.nodes[id].id == id
    ensures OwnPairs(w.nodes[id]) <= KnownPairs(w)
  {
  }

  lemma NodeStaysOk(n: Node, ever: Pairs, more: Pairs)
    requires NodeOk(n, ever) && ever <= more
    ensures NodeOk(n, more)
  {
  }

  // ----- Every run

  lemma {:induction false} RunKeepsInv(run: seq<World>)
    requires IsRun(run)
    ensures Inv(run[|run| - 1], Ever(run))
  {
    var n := |run| - 1;
    if n == 0 {
      assert Ever(run[..0]) == {};
    } else {
      RunKeepsInv(run[..n]);
      assert Next(run[n - 1], run[n]);
      var s :| NextBy(run[n - 1], run[n], s);
      NextKeepsInv(run[n - 1], run[n], s, Ever(run[..n]));
    }
  }

  lemma {:induction false} EverMeansEarlier(run: seq<World>, b: PeerId, a: PeerId)
    requires (b, a) in Ever(run)
    ensures exists j :: 0 <= j < |run| && b in run[j].nodes && a in run[j].nodes[b].known
  {
    var n := |run| - 1;
    if (b, a) in Ever(run[..n]) {
      EverMeansEarlier(run[..n], b, a);
      var j :| 0 <= j < n && b in run[..n][j].nodes && a in run[..n][j].nodes[b].known;
      assert run[j] == run[..n][j];
    } else {
      assert b in run[n].nodes && a in run[n].nodes[b].known;
    }
  }

  /**
   * Mutual consent. In every run from empty configurations, at every moment: if `a` holds `b`
   * as confirmed, then `b` is a node that has `a` among its known peers now, or had it at an
   * earlier moment of the run.
   */
  lemma ConfirmedMeansConsent(run: seq<World>, i: nat, a: PeerId, b: PeerId)
    requires IsRun(run) && i < |run|
    requires a in run[i].nodes && b != "" && b in run[i].nodes[a].known
    requires run[i].nodes[a].known[b].confirmed
    ensures exists j :: 0 <= j <= i && b in run[j].nodes && a in run[j].nodes[b].known
  {
    var upTo := run[..i + 1];
    RunKeepsInv(upTo);
    EverMeansEarlier(upTo, b, a);
    var j :| 0 <= j < |upTo| && b in upTo[j].nodes && a in upTo[j].nodes[b].known;
    assert run[j] == upTo[j];
  }
}
