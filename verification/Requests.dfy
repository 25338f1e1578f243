/**
 * Whom a node asks for friendship (service/auth_status.go): a peer that has confirmed or
 * declined, and to which no request is pending, is not asked again, in any run and across any
 * restarts, until the user invites it again; any other peer can be asked.
 */
module Requests {
  import opened Aliases
  import opened Friends
  import opened NodeState
  import opened Peers
  import opened StatusRuns
  import opened StatusTalks
  import C = ConfigEvents

  /** The node has nothing to ask the peer. */
  ghost predicate Decided(n: Node, p: PeerId) {
    (p in n.known ==> n.known[p].confirmed || n.known[p].declined) && p !in n.outgoing
  }

  /** A request to `p` is about to be sent. */
  predicate Pending(t: Task, at: PeerId, p: PeerId) {
    t.SendAuth? && t.at == at && t.peer == p
  }

  predicate Invites(s: Step, at: PeerId, p: PeerId) {
    s.Invite? && s.at == at && s.peer == p
  }

  // ----- One node

  lemma StatusKeepsDecided(n: Node, peer: PeerId, info: PeerStatusInfo, p: PeerId)
    requires Keyed(n.known) && Decided(n, p)
    ensures var m := ProcessStatus(n, peer, info); Keyed(m.known) && Decided(m, p)
  {
    C.StatusKeepsKeyed(n, peer, info);
  }

  lemma AddKeepsDecided(n: Node, peer: PeerId, name: string, alias: string, confirmed: bool, ip: IPText, p: PeerId)
    requires Keyed(n.known) && Decided(n, p) && (peer == p ==> confirmed)
    ensures var m := AddPeer(n, peer, name, alias, confirmed, ip); Keyed(m.known) && Decided(m, p)
  {
  }

  lemma UpdateKeepsDecided(n: Node, peer: PeerId, alias: string, domain: string, allow: bool, ip: IPText, p: PeerId)
    requires Keyed(n.known) && Decided(n, p)
    ensures var m := UpdatePeerSettings(n, peer, alias, domain, allow, ip); Keyed(m.known) && Decided(m, p)
  {
  }

  lemma AnswerKeepsDecided(n: Node, peer: PeerId, response: AuthResponse, p: PeerId)
    requires Keyed(n.known) && Decided(n, p)
    ensures var m := AuthAnswered(n, peer, response); Keyed(m.known) && Decided(m, p)
  {
  }

  lemma TaskKeepsDecided(n: Node, t: Task, p: PeerId)
    requires Keyed(n.known) && Decided(n, p) && Runs(t) && t.at == n.id && !Pending(t, n.id, p)
    ensures Keyed(RunTask(n, t).node.known) && Decided(RunTask(n, t).node, p)
  {
    if t.Process? {
      StatusKeepsDecided(n, t.peer, t.info, p);
    } else if t.AutoAccept? {
      AddKeepsDecided(n, t.peer, t.name, GenAlias(t.name, "", AliasesOf(n.known)), true, NoIP, p);
    }
  }

  lemma StepKeepsDecided(n: Node, s: Step, p: PeerId)
    requires Keyed(n.known) && Decided(n, p) && Applies(n, s) && s.at == n.id
    requires !Invites(s, n.id, p) && !(s.Run? && Pending(s.task, n.id, p))
    ensures Keyed(EffectOf(n, s).node.known) && Decided(EffectOf(n, s).node, p)
  {
    match s
    case Run(_, task) => TaskKeepsDecided(n, task, p);
    case Invite(_, peer, alias, ip) => AddKeepsDecided(n, peer, "", alias, false, ip, p);
    case Accept(_, peer, alias, ip) => AddKeepsDecided(n, peer, n.ingoing[peer], alias, true, ip, p);
    case Update(_, peer, alias, domain, allow, ip) => UpdateKeepsDecided(n, peer, alias, domain, allow, ip, p);
    case GetStatusResp(_, task, msg) => StatusKeepsDecided(n, msg.src, msg.info, p);
    case GetAuthResp(_, task, msg) => AnswerKeepsDecided(n, msg.src, msg.response, p);
    case _ =>
  }

  /** Who prepares a request: an invitation, or a retry. */
  lemma StepPrepares(n: Node, s: Step, p: PeerId, t: Task)
    requires Applies(n, s) && s.at == n.id && t in EffectOf(n, s).spawned && Pending(t, n.id, p)
    ensures Invites(s, n.id, p) || p in n.outgoing
  {
  }

  /** Who sends it. */
  lemma StepAsks(n: Node, s: Step, p: PeerId, m: Message)
    requires Applies(n, s) && s.at == n.id && m in EffectOf(n, s).sent && m.AuthReq? && m.dst == p
    ensures s.Run? && Pending(s.task, n.id, p)
  {
  }

  // ----- Worlds and runs

  ghost predicate NothingToAsk(w: World, at: PeerId, p: PeerId) {
    && at in w.nodes && Decided(w.nodes[at], p)
    && forall t :: t in w.tasks ==> !Pending(t, at, p)
  }

  ghost predicate NeverInvites(steps: seq<Step>, at: PeerId, p: PeerId) {
    forall i :: 0 <= i < |steps| ==> !Invites(steps[i], at, p)
  }

  /** The step sends `p` no request. */
  ghost predicate AsksNot(w: World, s: Step, at: PeerId, p: PeerId)
    requires Enabled(w, s)
  {
    s.at == at ==> forall m :: m in EffectOf(w.nodes[at], s).sent ==> !(m.AuthReq? && m.dst == p)
  }

  lemma NextKeepsNothing(w: World, w': World, s: Step, at: PeerId, p: PeerId)
    requires Named(w) && at in w.nodes && Keyed(w.nodes[at].known) && NothingToAsk(w, at, p)
    requires NextBy(w, w', s) && !Invites(s, at, p)
    ensures Named(w') && at in w'.nodes && Keyed(w'.nodes[at].known) && NothingToAsk(w', at, p)
  {
    StepKeepsNamed(w, w', s);
    EffectIsOwn(w.nodes[s.at], s);
    if s.at == at {
      StepKeepsDecided(w.nodes[at], s, p);
      forall t | t in w'.tasks
        ensures !Pending(t, at, p)
      {
        if t !in w.tasks && Pending(t, at, p) {
          StepPrepares(w.nodes[at], s, p, t);
        }
      }
    }
  }

  lemma {:induction false} RunKeepsNothing(run: seq<World>, steps: seq<Step>, i: nat, at: PeerId, p: PeerId)
    requires IsTrace(run, steps) && NeverInvites(steps, at, p) && i <= |steps|
    requires Named(run[0]) && at in run[0].nodes && Keyed(run[0].nodes[at].known) && NothingToAsk(run[0], at, p)
    ensures Named(run[i]) && at in run[i].nodes && Keyed(run[i].nodes[at].known) && NothingToAsk(run[i], at, p)
  {
    if i > 0 {
      RunKeepsNothing(run, steps, i - 1, at, p);
      var s := steps[i - 1];
      assert NextBy(run[i - 1], run[i - 1 + 1], s) && !Invites(s, at, p);
      NextKeepsNothing(run[i - 1], run[i], s, at, p);
    }
  }

  lemma RunAsksNot(run: seq<World>, steps: seq<Step>, i: nat, at: PeerId, p: PeerId)
    requires IsTrace(run, steps) && NeverInvites(steps, at, p) && i < |steps|
    requires Named(run[0]) && at in run[0].nodes && Keyed(run[0].nodes[at].known) && NothingToAsk(run[0], at, p)
    ensures Enabled(run[i], steps[i]) && AsksNot(run[i], steps[i], at, p)
  {
    RunKeepsNothing(run, steps, i, at, p);
    var s := steps[i];
    assert NextBy(run[i], run[i + 1], s);
    if s.at == at {
      forall m | m in EffectOf(run[i].nodes[at], s).sent
        ensures !(m.AuthReq? && m.dst == p)
      {
        if m.AuthReq? && m.dst == p {
          StepAsks(run[i].nodes[at], s, p, m);
        }
      }
    }
  }

  /** In every run from `w` without an invitation of `p`, it gets no request of `at`. */
  ghost predicate NeverAsks(w: World, at: PeerId, p: PeerId) {
    forall run, steps, i :: IsTrace(run, steps) && run[0] == w && NeverInvites(steps, at, p) && 0 <= i < |steps| ==>
      Enabled(run[i], steps[i]) && AsksNot(run[i], steps[i], at, p)
  }

  // ----- A peer that is not decided can be asked: by the pending request, a retry, or a restart

  /** The run stays at `at`, invites nobody, and the request is ready to go out. */
  ghost predicate AboutToAsk(w: World, run: seq<World>, steps: seq<Step>, at: PeerId, p: PeerId, t: Task) {
    && IsTrace(run, steps) && run[0] == w && NeverInvites(steps, at, p)
    && var v := run[|steps|]; at in v.nodes && v.nodes[at].id == at && t in v.tasks && Pending(t, at, p)
  }

  /** A retry prepares an outstanding request ... */
  lemma RetryPrepares(w: World, run: seq<World>, steps: seq<Step>, at: PeerId, p: PeerId)
    returns (run': seq<World>, steps': seq<Step>, t: Task)
    requires IsTrace(run, steps) && run[0] == w && NeverInvites(steps, at, p)
    requires var v := run[|steps|]; at in v.nodes && v.nodes[at].id == at && p in v.nodes[at].outgoing
    ensures AboutToAsk(w, run', steps', at, p, t)
  {
    var n := run[|steps|].nodes[at];
    t := SendAuth(at, p, n.outgoing[p]);
    run', steps' := Extend(run, steps, Retry(at, p), Effect(n, {}, {t}));
  }

  /** ... and a restart brings back the request to a peer that has not answered. */
  lemma Prepares(w: World, at: PeerId, p: PeerId)
    returns (run: seq<World>, steps: seq<Step>, t: Task)
    requires Named(w) && at in w.nodes && !NothingToAsk(w, at, p)
    ensures AboutToAsk(w, run, steps, at, p, t)
  {
    run, steps := [w], [];
    if u :| u in w.tasks && Pending(u, at, p) {
      t := u;
    } else {
      var n := w.nodes[at];
      if p !in n.outgoing {
        run, steps := Extend(run, steps, Restarted(at), Effect(Restart(n), {}, {}));
      }
      run, steps, t := RetryPrepares(w, run, steps, at, p);
    }
  }

  lemma CanAsk(w: World, at: PeerId, p: PeerId) returns (run: seq<World>, steps: seq<Step>)
    requires Named(w) && at in w.nodes && !NothingToAsk(w, at, p)
    ensures IsTrace(run, steps) && run[0] == w && NeverInvites(steps, at, p) && steps != []
    ensures var i := |steps| - 1; Enabled(run[i], steps[i]) && !AsksNot(run[i], steps[i], at, p)
  {
    var t;
    run, steps, t := Prepares(w, at, p);
    var n := run[|steps|].nodes[at];
    var m := AuthReq(at, p, t.name);
    var e := Effect(n.(outgoing := n.outgoing[p := t.name]), {m}, {AwaitAuth(at, p)});
    assert RunTask(n, t) == e && m in e.sent;
    run, steps := Extend(run, steps, Run(at, t), e);
  }

  /**
   * The exact condition, for every run with any restarts: a peer is never asked without an
   * invitation if and only if it has confirmed or declined, or is unknown, and no request to it
   * is outstanding or about to be sent.
   */
  lemma NeverAskedExactlyWhen(w: World, at: PeerId, p: PeerId)
    requires Named(w) && at in w.nodes && Keyed(w.nodes[at].known)
    ensures NeverAsks(w, at, p) <==>
              && (p in w.nodes[at].known ==> w.nodes[at].known[p].confirmed || w.nodes[at].known[p].declined)
              && p !in w.nodes[at].outgoing
              && forall name :: SendAuth(at, p, name) !in w.tasks
  {
    if NothingToAsk(w, at, p) {
      forall run, steps, i | IsTrace(run, steps) && run[0] == w && NeverInvites(steps, at, p) && 0 <= i < |steps|
        ensures Enabled(run[i], steps[i]) && AsksNot(run[i], steps[i], at, p)
      {
        RunAsksNot(run, steps, i, at, p);
      }
    } else {
      var run, steps := CanAsk(w, at, p);
      if t :| t in w.tasks && Pending(t, at, p) {
        assert t == SendAuth(at, p, t.name);
      }
    }
  }

  /** A restart is done with whoever has declined: without an invitation it is not asked again. */
  lemma DeclinedNotAskedAfterRestart(w: World, w': World, at: PeerId, p: PeerId)
    requires Named(w) && NextBy(w, w', Restarted(at)) && Keyed(w.nodes[at].known)
    requires p in w.nodes[at].known && w.nodes[at].known[p].declined
    requires forall name :: SendAuth(at, p, name) !in w'.tasks
    ensures NeverAsks(w', at, p)
  {
    StepKeepsNamed(w, w', Restarted(at));
    NeverAskedExactlyWhen(w', at, p);
  }

  /** A refusal by status does not end an outstanding request: the peer can be asked once more. */
  lemma DeclinedCanBeAsked(w: World, at: PeerId, p: PeerId)
    requires Named(w) && at in w.nodes && Keyed(w.nodes[at].known) && p in w.nodes[at].outgoing
    requires p in w.nodes[at].known && w.nodes[at].known[p].declined
    ensures !NeverAsks(w, at, p)
  {
    NeverAskedExactlyWhen(w, at, p);
  }
}
