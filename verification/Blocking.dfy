/**
 * What blocking a peer means in the protocol: from then on the peer is only told that it is
 * declined, in every run in which it is not added again, if and only if no status stream of
 * the peer was already being served when it was blocked. A handler that has looked the peer up
 * before the block answers with a full status.
 */
module Blocking {
  import opened Aliases
  import opened Friends
  import opened NodeState
  import opened Peers
  import opened StatusRuns
  import opened StatusTalks

  // ----- Refusals

  /** The message tells nothing but that its receiver is declined; requests of our own do not count. */
  predicate Refusal(m: Message) {
    match m
    case StatusReq(_, _, info) => info == PeerStatusInfo("", true, false, "")
    case StatusResp(_, _, info) => info == PeerStatusInfo("", true, false, "")
    case AuthResp(_, _, response) => response.declined
    case AuthReq(_, _, _) => true
  }

  ghost predicate OnlyRefusals(sent: set<Message>, p: PeerId) {
    forall m :: m in sent && m.dst == p ==> Refusal(m)
  }

  /** A status stream of `p` was looked up before the block. */
  predicate Open(t: Task, at: PeerId, p: PeerId) {
    t.Serve? && t.at == at && t.peer == p && !t.blocked
  }

  /** The step answers such a stream. */
  predicate AnswersOpen(s: Step, at: PeerId, p: PeerId) {
    s.GetStatus? && s.at == at && Open(s.task, at, p)
  }

  /** The user, or the automatic acceptance, adds `p` at `at`. */
  predicate Readds(s: Step, at: PeerId, p: PeerId) {
    s.at == at &&
    match s
    case Invite(_, peer, _, _) => peer == p
    case Accept(_, peer, _, _) => peer == p
    case Run(_, task) => task.AutoAccept? && task.peer == p
    case _ => false
  }

  // ----- One step of the node that blocks

  lemma TaskRefuses(n: Node, t: Task, p: PeerId)
    requires p in n.blocked && Runs(t)
    ensures OnlyRefusals(RunTask(n, t).sent, p)
    ensures !(t.AutoAccept? && t.peer == p) ==> p in RunTask(n, t).node.blocked
    ensures forall u :: u in RunTask(n, t).spawned ==> !Open(u, n.id, p)
  {
  }

  /** The exact condition for one step: only the answer to an open stream is no refusal. */
  lemma StepRefusesExactlyWhen(n: Node, s: Step, p: PeerId)
    requires p in n.blocked && Applies(n, s) && s.at == n.id
    ensures OnlyRefusals(EffectOf(n, s).sent, p) <==> !AnswersOpen(s, n.id, p)
  {
    if s.Run? {
      TaskRefuses(n, s.task, p);
    } else if AnswersOpen(s, n.id, p) {
      var answer := StatusResp(n.id, p, CreatePeerInfo(n, s.task.record, false));
      assert answer in EffectOf(n, s).sent && !Refusal(answer);
    }
  }

  /** Unless `p` is added again it stays blocked, and no stream of it is opened. */
  lemma StepKeepsBlock(n: Node, s: Step, p: PeerId)
    requires p in n.blocked && Applies(n, s) && s.at == n.id && !Readds(s, n.id, p)
    ensures p in EffectOf(n, s).node.blocked
    ensures forall t :: t in EffectOf(n, s).spawned ==> !Open(t, n.id, p)
  {
    if s.Run? {
      TaskRefuses(n, s.task, p);
    }
  }

  // ----- Worlds and runs

  ghost predicate NoneOpen(w: World, at: PeerId, p: PeerId) {
    forall t :: t in w.tasks ==> !Open(t, at, p)
  }

  ghost predicate Blocks(w: World, at: PeerId, p: PeerId) {
    Named(w) && at in w.nodes && p in w.nodes[at].blocked
  }

  lemma NextKeepsBlock(w: World, w': World, s: Step, at: PeerId, p: PeerId)
    requires Blocks(w, at, p) && NoneOpen(w, at, p) && NextBy(w, w', s) && !Readds(s, at, p)
    ensures Blocks(w', at, p) && NoneOpen(w', at, p)
  {
    StepKeepsNamed(w, w', s);
    EffectIsOwn(w.nodes[s.at], s);
    if s.at == at {
      StepKeepsBlock(w.nodes[at], s, p);
    }
  }

  /** Everything `at` sends in the step refuses `p`. */
  ghost predicate RefusesIn(w: World, s: Step, at: PeerId, p: PeerId)
    requires Enabled(w, s)
  {
    s.at == at ==> OnlyRefusals(EffectOf(w.nodes[at], s).sent, p)
  }

  ghost predicate NeverReadds(steps: seq<Step>, at: PeerId, p: PeerId) {
    forall i :: 0 <= i < |steps| ==> !Readds(steps[i], at, p)
  }

  /** In every run from `w` without another addition of `p`, `at` sends it nothing but refusals. */
  ghost predicate AlwaysRefuses(w: World, at: PeerId, p: PeerId) {
    forall run, steps, i :: IsTrace(run, steps) && run[0] == w && NeverReadds(steps, at, p) && 0 <= i < |steps| ==>
      Enabled(run[i], steps[i]) && RefusesIn(run[i], steps[i], at, p)
  }

  lemma {:induction false} RunKeepsBlock(run: seq<World>, steps: seq<Step>, i: nat, at: PeerId, p: PeerId)
    requires IsTrace(run, steps) && NeverReadds(steps, at, p) && i <= |steps|
    requires Blocks(run[0], at, p) && NoneOpen(run[0], at, p)
    ensures Blocks(run[i], at, p) && NoneOpen(run[i], at, p)
  {
    if i > 0 {
      RunKeepsBlock(run, steps, i - 1, at, p);
      var s := steps[i - 1];
      assert NextBy(run[i - 1], run[i - 1 + 1], s) && !Readds(s, at, p);
      NextKeepsBlock(run[i - 1], run[i], s, at, p);
    }
  }

  lemma RunRefuses(run: seq<World>, steps: seq<Step>, i: nat, at: PeerId, p: PeerId)
    requires IsTrace(run, steps) && NeverReadds(steps, at, p) && i < |steps|
    requires Blocks(run[0], at, p) && NoneOpen(run[0], at, p)
    ensures Enabled(run[i], steps[i]) && RefusesIn(run[i], steps[i], at, p)
  {
    RunKeepsBlock(run, steps, i, at, p);
    var s := steps[i];
    assert NextBy(run[i], run[i + 1], s);
    if s.at == at {
      StepRefusesExactlyWhen(run[i].nodes[at], s, p);
    }
  }

  // ----- An open stream leaks: the peer asks, and the handler answers it

  lemma TrimKeeps(s: string)
    requires s != "" && !IsSpace(s[0]) && !IsSpace(s[|s| - 1])
    ensures TrimSpace(s) == s
  {
  }

  lemma ItoaEnds(n: nat)
    ensures Itoa(n) != "" && !IsSpace(Itoa(n)[|Itoa(n)| - 1])
  {
  }

  /** There is always an alias under which a new peer can be invited. */
  lemma SomeAlias(n: Node, peer: PeerId) returns (alias: string)
    requires peer !in n.known
    ensures AddAllowed(n, peer, alias, NoIP)
  {
    var taken := AliasesOf(n.known);
    alias := FirstFree("x", taken, 0);
    var k :| k >= 0 && alias == Candidate("x", k);
    ItoaEnds(k);
    TrimKeeps(alias);
    assert forall id :: id in n.known ==> n.known[id].alias in taken;
  }

  /** A run of steps of `p` alone, after which everything that was pending still is. */
  ghost predicate Alone(run: seq<World>, steps: seq<Step>, w: World, p: PeerId) {
    && IsTrace(run, steps) && run[0] == w
    && (forall i :: 0 <= i < |steps| ==> steps[i].at == p)
    && var v := run[|steps|];
       && w.tasks <= v.tasks && p in v.nodes && v.nodes[p].id == p
       && v.nodes == w.nodes[p := v.nodes[p]]
  }

  lemma OneMoreAlone(run: seq<World>, steps: seq<Step>, w: World, p: PeerId, s: Step, e: Effect)
    returns (run': seq<World>, steps': seq<Step>)
    requires Alone(run, steps, w, p) && s.at == p && e.node.id == p
    requires Steps(run[|steps|].nodes[p], s, e) && Ready(run[|steps|], s)
    ensures Alone(run', steps', w, p) && run'[|steps'|] == Done(run[|steps|], p, e)
  {
    run', steps' := Extend(run, steps, s, e);
    assert run'[|steps'|].nodes == w.nodes[p := e.node];
  }

  /** `p` wants to exchange statuses with `at`, inviting it if need be. */
  lemma WantsExchange(w: World, at: PeerId, p: PeerId)
    returns (run: seq<World>, steps: seq<Step>, record: KnownPeer)
    requires Named(w) && p in w.nodes && at != p && at != ""
    ensures Alone(run, steps, w, p) && Exchange(p, at, record) in run[|steps|].tasks
  {
    var x := w.nodes[p];
    run, steps := [w], [];
    assert w.nodes[p := x] == w.nodes;
    if at in x.known {
      record := x.known[at];
      run, steps := OneMoreAlone(run, steps, w, p, Refresh(p, at), Effect(x, {}, {Exchange(p, at, record)}));
    } else {
      var alias := SomeAlias(x, at);
      var added := AddPeer(x, at, "", alias, false, NoIP);
      record := GetPeer(added.known, at);
      run, steps := OneMoreAlone(run, steps, w, p, Invite(p, at, alias, NoIP),
                                 Effect(added, {}, {SendAuth(p, at, x.name)} + {Reread(p, at)}));
      run, steps := OneMoreAlone(run, steps, w, p, Run(p, Reread(p, at)),
                                 Effect(added, {}, {Exchange(p, at, record)}));
    }
  }

  /** It sends its status. */
  lemma Asks(w: World, at: PeerId, p: PeerId) returns (run: seq<World>, steps: seq<Step>, info: PeerStatusInfo)
    requires Named(w) && p in w.nodes && at != p && at != ""
    ensures Alone(run, steps, w, p) && StatusReq(p, at, info) in run[|steps|].msgs
  {
    var record;
    run, steps, record := WantsExchange(w, at, p);
    var x := run[|steps|].nodes[p];
    var y := x.(ingoing := x.ingoing - {at});
    run, steps := OneMoreAlone(run, steps, w, p, Run(p, Exchange(p, at, record)),
                               Effect(y, {}, {ExchangeSend(p, at, record)}));
    info := CreatePeerInfo(y, record, at in y.blocked);
    run, steps := OneMoreAlone(run, steps, w, p, Run(p, ExchangeSend(p, at, record)),
                               Effect(y, {StatusReq(p, at, info)}, {AwaitStatus(p, at, at in y.blocked)}));
  }

  /** A run without another addition in which the handler of an open stream tells `p` our full status. */
  lemma OpenStreamLeaks(w: World, at: PeerId, p: PeerId, t: Task) returns (run: seq<World>, steps: seq<Step>)
    requires Blocks(w, at, p) && p in w.nodes && at != p && at != "" && t in w.tasks && Open(t, at, p)
    ensures IsTrace(run, steps) && run[0] == w && NeverReadds(steps, at, p) && steps != []
    ensures var i := |steps| - 1; Enabled(run[i], steps[i]) && !RefusesIn(run[i], steps[i], at, p)
  {
    var run0, steps0, info := Asks(w, at, p);
    var n, s := w.nodes[at], GetStatus(at, t, StatusReq(p, at, info));
    run, steps := Extend(run0, steps0, s, EffectOf(n, s));
    StepRefusesExactlyWhen(n, s, p);
  }

  /**
   * The exact condition: a blocked peer is only ever refused, in every run in which it is not
   * added again, if and only if none of its status streams was being served when it was blocked.
   */
  lemma RefusedExactlyWhen(w: World, at: PeerId, p: PeerId)
    requires Blocks(w, at, p) && p in w.nodes && at != p && at != ""
    ensures AlwaysRefuses(w, at, p) <==> NoneOpen(w, at, p)
  {
    if NoneOpen(w, at, p) {
      forall run, steps, i | IsTrace(run, steps) && run[0] == w && NeverReadds(steps, at, p) && 0 <= i < |steps|
        ensures Enabled(run[i], steps[i]) && RefusesIn(run[i], steps[i], at, p)
      {
        RunRefuses(run, steps, i, at, p);
      }
    } else {
      var t :| t in w.tasks && Open(t, at, p);
      var run, steps := OpenStreamLeaks(w, at, p, t);
    }
  }

  // ----- Nothing is learned from a blocked peer

  /** An exchange with `p` is under way that was not refused. */
  predicate Hearing(t: Task, at: PeerId, p: PeerId) {
    t.at == at && t.peer == p && (((t.Serve? || t.AwaitStatus?) && !t.blocked) || t.Process?)
  }

  ghost predicate HearsNone(w: World, at: PeerId, p: PeerId) {
    forall t :: t in w.tasks ==> !Hearing(t, at, p)
  }

  /** `n` holds about `p` no more than `m`, and of what peers report the same. */
  ghost predicate NothingLearned(m: Node, n: Node, p: PeerId) {
    p in n.known ==>
      && p in m.known
      && n.known[p].name == m.known[p].name && n.known[p].confirmed == m.known[p].confirmed
      && n.known[p].allowed == m.known[p].allowed && n.known[p].reportedUsing == m.known[p].reportedUsing
  }

  lemma StatusOfAnother(n: Node, peer: PeerId, info: PeerStatusInfo, p: PeerId)
    requires Keyed(n.known) && p != "" && peer != p
    ensures Keyed(ProcessStatus(n, peer, info).known) && NothingLearned(n, ProcessStatus(n, peer, info), p)
  {
  }

  lemma AddOfAnother(n: Node, peer: PeerId, name: string, alias: string, confirmed: bool, ip: IPText, p: PeerId)
    requires Keyed(n.known) && peer != p
    ensures var m := AddPeer(n, peer, name, alias, confirmed, ip); Keyed(m.known) && NothingLearned(n, m, p)
  {
  }

  lemma UpdateTeachesNothing(n: Node, peer: PeerId, alias: string, domain: string, allow: bool, ip: IPText, p: PeerId)
    requires Keyed(n.known)
    ensures var m := UpdatePeerSettings(n, peer, alias, domain, allow, ip); Keyed(m.known) && NothingLearned(n, m, p)
  {
  }

  lemma AnswerTeachesNothing(n: Node, peer: PeerId, response: AuthResponse, p: PeerId)
    requires Keyed(n.known)
    ensures var m := AuthAnswered(n, peer, response); Keyed(m.known) && NothingLearned(n, m, p)
  {
  }

  lemma TaskTeachesNothing(n: Node, t: Task, p: PeerId)
    requires Keyed(n.known) && p != "" && p in n.blocked && Runs(t) && t.at == n.id
    requires !Hearing(t, n.id, p) && !(t.AutoAccept? && t.peer == p)
    ensures Keyed(RunTask(n, t).node.known) && NothingLearned(n, RunTask(n, t).node, p)
  {
    if t.Process? {
      StatusOfAnother(n, t.peer, t.info, p);
    } else if t.AutoAccept? {
      AddOfAnother(n, t.peer, t.name, GenAlias(t.name, "", AliasesOf(n.known)), true, NoIP, p);
    }
  }

  lemma StepTeachesNothing(n: Node, s: Step, p: PeerId)
    requires Keyed(n.known) && p != "" && p in n.blocked && Applies(n, s) && s.at == n.id && !Readds(s, n.id, p)
    requires s.Run? || s.GetStatus? || s.GetStatusResp? ==> !Hearing(s.task, n.id, p)
    ensures Keyed(EffectOf(n, s).node.known) && NothingLearned(n, EffectOf(n, s).node, p)
  {
    match s
    case Run(_, task) => TaskTeachesNothing(n, task, p);
    case Invite(_, peer, alias, ip) => AddOfAnother(n, peer, "", alias, false, ip, p);
    case Accept(_, peer, alias, ip) => AddOfAnother(n, peer, n.ingoing[peer], alias, true, ip, p);
    case Update(_, peer, alias, domain, allow, ip) => UpdateTeachesNothing(n, peer, alias, domain, allow, ip, p);
    case GetStatusResp(_, task, msg) =>
      if !task.blocked {
        StatusOfAnother(n, msg.src, msg.info, p);
      }
    case GetAuthResp(_, task, msg) => AnswerTeachesNothing(n, msg.src, msg.response, p);
    case _ =>
  }

  /** No step of the node starts an exchange with the blocked peer that is not refused. */
  lemma StepStartsNoHearing(n: Node, s: Step, p: PeerId, t: Task)
    requires p in n.blocked && Applies(n, s) && s.at == n.id && t in EffectOf(n, s).spawned
    requires s.GetStatus? ==> !Hearing(s.task, n.id, p)
    ensures !Hearing(t, n.id, p)
  {
  }

  /** A world in which `at` blocks `p` and hears nothing of it. */
  ghost predicate Deaf(w: World, at: PeerId, p: PeerId) {
    Blocks(w, at, p) && Keyed(w.nodes[at].known) && HearsNone(w, at, p)
  }

  lemma NextStaysDeaf(w: World, w': World, s: Step, at: PeerId, p: PeerId)
    requires Deaf(w, at, p) && p != "" && NextBy(w, w', s) && !Readds(s, at, p)
    ensures Deaf(w', at, p) && NothingLearned(w.nodes[at], w'.nodes[at], p)
  {
    StepKeepsNamed(w, w', s);
    EffectIsOwn(w.nodes[s.at], s);
    if s.at == at {
      StepKeepsBlock(w.nodes[at], s, p);
      StepTeachesNothing(w.nodes[at], s, p);
      forall t | t in w'.tasks
        ensures !Hearing(t, at, p)
      {
        if t !in w.tasks {
          StepStartsNoHearing(w.nodes[at], s, p, t);
        }
      }
    }
  }

  /**
   * In every run in which a blocked peer is not added again, whatever it sends changes nothing of
   * what the node holds about it, if no exchange with it was under way when it was blocked.
   */
  lemma {:induction false} NothingIsLearned(run: seq<World>, steps: seq<Step>, i: nat, at: PeerId, p: PeerId)
    requires IsTrace(run, steps) && NeverReadds(steps, at, p) && i <= |steps| && p != "" && Deaf(run[0], at, p)
    ensures Deaf(run[i], at, p) && NothingLearned(run[0].nodes[at], run[i].nodes[at], p)
  {
    if i > 0 {
      NothingIsLearned(run, steps, i - 1, at, p);
      var s := steps[i - 1];
      assert NextBy(run[i - 1], run[i - 1 + 1], s) && !Readds(s, at, p);
      NextStaysDeaf(run[i - 1], run[i], s, at, p);
    }
  }
}
