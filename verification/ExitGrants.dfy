/**
 * Who may use this node as an exit node: the permission that a node has set for a peer, along
 * every configuration history and every run of the protocol, and what the peer is told of it.
 * The permission is in force exactly when the last change of settings since the peer was added
 * granted it. A peer can be told an older setting, but only by a handler that read it in time.
 */
module ExitGrants {
  import opened Aliases
  import opened Blocking
  import opened Friends
  import opened NodeState
  import opened Peers
  import opened StatusRuns
  import opened StatusTalks
  import C = ConfigEvents

  ghost predicate Allows(n: Node, p: PeerId) {
    p in n.known && n.known[p].weAllow
  }

  // ----- What holds since it was last brought about

  /** Some earlier moment `sets` it and none after that `ends` it. */
  ghost predicate Since(sets: int -> bool, ends: int -> bool, i: nat) {
    exists k :: 0 <= k < i && sets(k) && forall j :: k < j < i ==> !ends(j)
  }

  lemma SinceOneMore(sets: int -> bool, ends: int -> bool, i: nat)
    ensures Since(sets, ends, i + 1) <==> sets(i) || (Since(sets, ends, i) && !ends(i))
  {
    if Since(sets, ends, i + 1) && !sets(i) {
      var k :| 0 <= k < i + 1 && sets(k) && forall j :: k < j < i + 1 ==> !ends(j);
      assert k < i;
    }
    if Since(sets, ends, i) && !ends(i) {
      var k :| 0 <= k < i && sets(k) && forall j :: k < j < i ==> !ends(j);
      assert forall j :: k < j < i + 1 ==> !ends(j);
    }
  }

  // ----- The phases, on one node

  lemma AddKeepsAllows(n: Node, peer: PeerId, name: string, alias: string, confirmed: bool, ip: IPText, p: PeerId)
    requires Keyed(n.known)
    ensures var m := AddPeer(n, peer, name, alias, confirmed, ip); Keyed(m.known) && Allows(m, p) == Allows(n, p)
  {
  }

  lemma UpdateAllows(n: Node, peer: PeerId, alias: string, domain: string, allow: bool, ip: IPText, p: PeerId)
    requires Keyed(n.known)
    ensures var m := UpdatePeerSettings(n, peer, alias, domain, allow, ip);
            && Keyed(m.known)
            && Allows(m, p) == if peer == p && UpdateAllowed(n, p, alias, ip) then allow else Allows(n, p)
  {
  }

  lemma StatusKeepsAllows(n: Node, peer: PeerId, info: PeerStatusInfo, p: PeerId)
    requires Keyed(n.known) && p != ""
    ensures var m := ProcessStatus(n, peer, info); Keyed(m.known) && Allows(m, p) == Allows(n, p)
  {
    C.StatusKeepsKeyed(n, peer, info);
  }

  lemma AnswerKeepsAllows(n: Node, peer: PeerId, response: AuthResponse, p: PeerId)
    requires Keyed(n.known)
    ensures var m := AuthAnswered(n, peer, response); Keyed(m.known) && Allows(m, p) == Allows(n, p)
  {
  }

  // ----- Configuration histories

  ghost predicate GrantsBy(n: Node, e: C.Event, p: PeerId) {
    e.Update? && e.peer == p && e.allow && UpdateAllowed(n, p, e.alias, e.ip)
  }

  ghost predicate RevokesBy(n: Node, e: C.Event, p: PeerId) {
    (e.Remove? && e.peer == p) || (e.Update? && e.peer == p && !e.allow && UpdateAllowed(n, p, e.alias, e.ip))
  }

  lemma EventAllowsExactlyWhen(n: Node, e: C.Event, p: PeerId)
    requires Keyed(n.known) && p != ""
    ensures Allows(C.Do(n, e), p) <==> GrantsBy(n, e, p) || (Allows(n, p) && !RevokesBy(n, e, p))
  {
    match e
    case Add(peer, name, alias, confirmed, ip) => AddKeepsAllows(n, peer, name, alias, confirmed, ip, p);
    case Update(peer, alias, domain, allow, ip) => UpdateAllows(n, peer, alias, domain, allow, ip, p);
    case Status(peer, info) => StatusKeepsAllows(n, peer, info, p);
    case Answer(peer, response) => AnswerKeepsAllows(n, peer, response, p);
    case _ =>
  }

  /**
   * For every history that starts without the permission: it is in force at the end exactly when
   * an allowed change of settings granted it and no later one, and no removal, revoked it.
   */
  lemma {:induction false} AllowedExactlyWhen(n: Node, events: seq<C.Event>, i: nat, p: PeerId)
    requires Keyed(n.known) && p != "" && !Allows(n, p) && i <= |events|
    ensures Keyed(C.After(n, events[..i]).known)
    ensures Allows(C.After(n, events[..i]), p) <==>
              Since(k => 0 <= k < |events| && GrantsBy(C.After(n, events[..k]), events[k], p),
                    k => 0 <= k < |events| && RevokesBy(C.After(n, events[..k]), events[k], p), i)
  {
    if i > 0 {
      var before := C.After(n, events[..i - 1]);
      AllowedExactlyWhen(n, events, i - 1, p);
      assert events[..i][..i - 1] == events[..i - 1];
      EventAllowsExactlyWhen(before, events[i - 1], p);
      C.DoKeepsKeyed(before, events[i - 1]);
      SinceOneMore(k => 0 <= k < |events| && GrantsBy(C.After(n, events[..k]), events[k], p),
                   k => 0 <= k < |events| && RevokesBy(C.After(n, events[..k]), events[k], p), i - 1);
    }
  }

  // ----- Steps of the protocol

  ghost predicate Grants(n: Node, s: Step, p: PeerId) {
    s.Update? && s.peer == p && s.allow && UpdateAllowed(n, p, s.alias, s.ip)
  }

  ghost predicate Revokes(n: Node, s: Step, p: PeerId) {
    (s.Remove? && s.peer == p) || (s.Update? && s.peer == p && !s.allow && UpdateAllowed(n, p, s.alias, s.ip))
  }

  lemma StepAllowsExactlyWhen(n: Node, s: Step, p: PeerId)
    requires Keyed(n.known) && p != "" && Applies(n, s)
    ensures Keyed(EffectOf(n, s).node.known)
    ensures Allows(EffectOf(n, s).node, p) <==> Grants(n, s, p) || (Allows(n, p) && !Revokes(n, s, p))
  {
    match s
    case Run(_, task) => TaskKeepsAllows(n, task, p);
    case Invite(_, peer, alias, ip) => AddKeepsAllows(n, peer, "", alias, false, ip, p);
    case Accept(_, peer, alias, ip) => AddKeepsAllows(n, peer, n.ingoing[peer], alias, true, ip, p);
    case Update(_, peer, alias, domain, allow, ip) => UpdateAllows(n, peer, alias, domain, allow, ip, p);
    case GetStatusResp(_, task, msg) => StatusKeepsAllows(n, msg.src, msg.info, p);
    case GetAuthResp(_, task, msg) => AnswerKeepsAllows(n, msg.src, msg.response, p);
    case _ =>
  }

  lemma TaskKeepsAllows(n: Node, t: Task, p: PeerId)
    requires Keyed(n.known) && p != "" && Runs(t)
    ensures Keyed(RunTask(n, t).node.known)
    ensures Allows(RunTask(n, t).node, p) <==> Allows(n, p)
  {
    if t.Process? {
      StatusKeepsAllows(n, t.peer, t.info, p);
    } else if t.AutoAccept? {
      AddKeepsAllows(n, t.peer, t.name, GenAlias(t.name, "", AliasesOf(n.known)), true, NoIP, p);
    }
  }

  // ----- Runs of the protocol

  ghost predicate AllKeyed(w: World) {
    Named(w) && forall id :: id in w.nodes ==> Keyed(w.nodes[id].known)
  }

  ghost predicate AllowsIn(w: World, at: PeerId, p: PeerId) {
    at in w.nodes && Allows(w.nodes[at], p)
  }

  ghost predicate GrantsIn(w: World, s: Step, at: PeerId, p: PeerId) {
    s.at == at && at in w.nodes && Grants(w.nodes[at], s, p)
  }

  ghost predicate RevokesIn(w: World, s: Step, at: PeerId, p: PeerId) {
    s.at == at && at in w.nodes && Revokes(w.nodes[at], s, p)
  }

  lemma NextAllowsExactlyWhen(w: World, w': World, s: Step, at: PeerId, p: PeerId)
    requires AllKeyed(w) && NextBy(w, w', s) && p != ""
    ensures AllKeyed(w')
    ensures AllowsIn(w', at, p) <==> GrantsIn(w, s, at, p) || (AllowsIn(w, at, p) && !RevokesIn(w, s, at, p))
  {
    StepKeepsNamed(w, w', s);
    StepAllowsExactlyWhen(w.nodes[s.at], s, p);
  }

  /** The permission has been granted in the run and not revoked since. */
  ghost predicate GrantedSince(run: seq<World>, steps: seq<Step>, i: nat, at: PeerId, p: PeerId)
    requires |run| == |steps| + 1
  {
    Since(k => 0 <= k < |steps| && GrantsIn(run[k], steps[k], at, p),
          k => 0 <= k < |steps| && RevokesIn(run[k], steps[k], at, p), i)
  }

  lemma GrantedOneMore(run: seq<World>, steps: seq<Step>, i: nat, at: PeerId, p: PeerId)
    requires |run| == |steps| + 1 && i < |steps|
    ensures GrantedSince(run, steps, i + 1, at, p) <==>
              GrantsIn(run[i], steps[i], at, p)
              || (GrantedSince(run, steps, i, at, p) && !RevokesIn(run[i], steps[i], at, p))
  {
    SinceOneMore(k => 0 <= k < |steps| && GrantsIn(run[k], steps[k], at, p),
                 k => 0 <= k < |steps| && RevokesIn(run[k], steps[k], at, p), i);
  }

  lemma TraceStep(run: seq<World>, steps: seq<Step>, k: nat)
    requires IsTrace(run, steps) && k < |steps|
    ensures NextBy(run[k], run[k + 1], steps[k])
  {
  }

  /** The same for every run, with lost, late and repeated messages, other peers and restarts. */
  lemma {:induction false} RunAllowsExactlyWhen(run: seq<World>, steps: seq<Step>, i: nat, at: PeerId, p: PeerId)
    requires IsTrace(run, steps) && AllKeyed(run[0]) && p != "" && !AllowsIn(run[0], at, p) && i <= |steps|
    ensures AllKeyed(run[i])
    ensures AllowsIn(run[i], at, p) <==> GrantedSince(run, steps, i, at, p)
  {
    if i > 0 {
      var k := i - 1;
      RunAllowsExactlyWhen(run, steps, k, at, p);
      TraceStep(run, steps, k);
      NextAllowsExactlyWhen(run[k], run[i], steps[k], at, p);
      GrantedOneMore(run, steps, k, at, p);
    }
  }

  // ----- What the peer is told

  /** The goroutine carries a copy of the record of `p`. */
  predicate Copies(t: Task, at: PeerId, p: PeerId) {
    (t.Exchange? || t.ExchangeSend? || t.Serve?) && t.at == at && t.peer == p
  }

  /** A status for `p`. */
  predicate Tells(m: Message, p: PeerId) {
    (m.StatusReq? || m.StatusResp?) && m.dst == p
  }

  /** A status is written from a copy that a goroutine carries, unless it is a refusal. */
  lemma StatusIsACopy(n: Node, s: Step, p: PeerId, m: Message)
    requires Applies(n, s) && s.at == n.id && m in EffectOf(n, s).sent && Tells(m, p)
    ensures (s.Run? || s.GetStatus?) && Copies(s.task, n.id, p)
    ensures m.info.declined || m.info.allow == s.task.record.weAllow
    ensures m.info.declined ==> !m.info.allow
    ensures m.info.declined <==> if s.Run? then p in n.blocked else s.task.blocked
  {
  }

  /** A new copy is of the record at that moment, or a copy that was there before. */
  lemma CopyIsCurrent(n: Node, s: Step, p: PeerId, t: Task)
    requires Keyed(n.known) && Applies(n, s) && s.at == n.id && t in EffectOf(n, s).spawned && Copies(t, n.id, p)
    ensures (s.Run? && Copies(s.task, n.id, p) && t.record == s.task.record)
         || t.record.weAllow == Allows(EffectOf(n, s).node, p)
         || (t.Exchange? && t.record == ZERO_PEER && p in EffectOf(n, s).node.blocked)
  {
  }

  ghost predicate NoCopies(w: World, at: PeerId, p: PeerId) {
    forall t :: t in w.tasks ==> !Copies(t, at, p)
  }

  /** The permission was in force at some moment up to `i`. */
  ghost predicate WasAllowed(run: seq<World>, i: nat, at: PeerId, p: PeerId)
    requires i < |run|
  {
    exists j :: 0 <= j <= i && AllowsIn(run[j], at, p)
  }

  /** A copy with the permission was there before the step, or the permission is in force after it. */
  lemma NewCopy(w: World, w': World, s: Step, at: PeerId, p: PeerId, t: Task)
    requires AllKeyed(w) && NextBy(w, w', s) && t in w'.tasks && t !in w.tasks && Copies(t, at, p) && t.record.weAllow
    ensures AllowsIn(w', at, p) || (s.Run? && s.task in w.tasks && Copies(s.task, at, p) && s.task.record.weAllow)
  {
    EffectIsOwn(w.nodes[s.at], s);
    CopyIsCurrent(w.nodes[at], s, p, t);
  }

  lemma {:induction false} CopyWasAllowed(
    run: seq<World>, steps: seq<Step>, i: nat, at: PeerId, p: PeerId, t: Task)
    requires IsTrace(run, steps) && AllKeyed(run[0]) && p != "" && !AllowsIn(run[0], at, p) && NoCopies(run[0], at, p)
    requires i <= |steps| && t in run[i].tasks && Copies(t, at, p) && t.record.weAllow
    ensures WasAllowed(run, i, at, p)
    decreases i
  {
    if i > 0 {
      var k := i - 1;
      TraceStep(run, steps, k);
      if t in run[k].tasks {
        CopyWasAllowed(run, steps, k, at, p, t);
      } else {
        RunAllowsExactlyWhen(run, steps, k, at, p);
        NewCopy(run[k], run[i], steps[k], at, p, t);
        if !AllowsIn(run[i], at, p) {
          CopyWasAllowed(run, steps, k, at, p, steps[k].task);
        }
      }
    }
  }

  /**
   * In every run, a peer is told that it may use us only if at some earlier moment the user had
   * granted it and not revoked it.
   */
  lemma ToldMeansGranted(run: seq<World>, steps: seq<Step>, i: nat, at: PeerId, p: PeerId, m: Message) returns (j: nat)
    requires IsTrace(run, steps) && AllKeyed(run[0]) && p != "" && !AllowsIn(run[0], at, p) && NoCopies(run[0], at, p)
    requires i < |steps| && steps[i].at == at && Enabled(run[i], steps[i])
    requires m in EffectOf(run[i].nodes[at], steps[i]).sent && Tells(m, p) && m.info.allow
    ensures j <= i && AllowsIn(run[j], at, p) && GrantedSince(run, steps, j, at, p)
  {
    RunAllowsExactlyWhen(run, steps, i, at, p);
    var s := steps[i];
    StatusIsACopy(run[i].nodes[at], s, p, m);
    CopyWasAllowed(run, steps, i, at, p, s.task);
    j :| 0 <= j <= i && AllowsIn(run[j], at, p);
    RunAllowsExactlyWhen(run, steps, j, at, p);
  }

  // ----- When the peer is told the current setting

  /** The copy differs from the setting, and will be sent. */
  ghost predicate Stale(t: Task, n: Node, p: PeerId) {
    && Copies(t, n.id, p) && t.record.weAllow != Allows(n, p)
    && (if t.Serve? then !t.blocked else p !in n.blocked)
  }

  ghost predicate NoneStale(w: World, at: PeerId, p: PeerId) {
    at in w.nodes && forall t :: t in w.tasks ==> !Stale(t, w.nodes[at], p)
  }

  /** The user changes, removes or adds `p` at `at`, or it is added automatically. */
  predicate Alters(s: Step, at: PeerId, p: PeerId) {
    Readds(s, at, p) || (s.at == at && (s.Update? || s.Remove?) && s.peer == p)
  }

  ghost predicate NeverAlters(steps: seq<Step>, at: PeerId, p: PeerId) {
    forall i :: 0 <= i < |steps| ==> !Alters(steps[i], at, p)
  }

  /** Every status of the step for `p` is a refusal or tells the setting. */
  ghost predicate TellsSetting(n: Node, s: Step, p: PeerId)
    requires Applies(n, s)
  {
    forall m :: m in EffectOf(n, s).sent && Tells(m, p) ==> m.info.declined || m.info.allow == Allows(n, p)
  }

  ghost predicate TellsSettingIn(w: World, s: Step, at: PeerId, p: PeerId)
    requires Enabled(w, s)
  {
    s.at == at ==> TellsSetting(w.nodes[at], s, p)
  }

  lemma StepTellsSetting(n: Node, s: Step, p: PeerId)
    requires Applies(n, s) && s.at == n.id && (s.Run? || s.GetStatus? ==> !Stale(s.task, n, p))
    ensures TellsSetting(n, s, p)
  {
    forall m | m in EffectOf(n, s).sent && Tells(m, p)
      ensures m.info.declined || m.info.allow == Allows(n, p)
    {
      StatusIsACopy(n, s, p, m);
    }
  }

  lemma BlockIsKept(n: Node, s: Step, p: PeerId)
    requires Applies(n, s) && s.at == n.id && p in n.blocked && !Alters(s, n.id, p)
    ensures p in EffectOf(n, s).node.blocked
  {
    StepKeepsBlock(n, s, p);
  }

  /** A step of the node that does not alter `p` makes no stale copy. */
  lemma StepMakesNoneStale(n: Node, s: Step, p: PeerId, t: Task)
    requires Keyed(n.known) && p != "" && Applies(n, s) && s.at == n.id && !Alters(s, n.id, p)
    requires (s.Run? ==> !Stale(s.task, n, p)) && t in EffectOf(n, s).spawned
    ensures !Stale(t, EffectOf(n, s).node, p)
  {
    StepAllowsExactlyWhen(n, s, p);
    EffectIsOwn(n, s);
    if Copies(t, n.id, p) {
      CopyIsCurrent(n, s, p, t);
      if p in n.blocked {
        BlockIsKept(n, s, p);
      }
    }
  }

  lemma StepLeavesNoneStale(n: Node, s: Step, p: PeerId, t: Task)
    requires Keyed(n.known) && p != "" && Applies(n, s) && s.at == n.id && !Alters(s, n.id, p) && !Stale(t, n, p)
    ensures !Stale(t, EffectOf(n, s).node, p)
  {
    StepAllowsExactlyWhen(n, s, p);
    EffectIsOwn(n, s);
    if p in n.blocked {
      BlockIsKept(n, s, p);
    }
  }

  lemma NextKeepsNoneStale(w: World, w': World, s: Step, at: PeerId, p: PeerId)
    requires AllKeyed(w) && NoneStale(w, at, p) && p != "" && NextBy(w, w', s) && !Alters(s, at, p)
    ensures AllKeyed(w') && NoneStale(w', at, p)
  {
    NextAllowsExactlyWhen(w, w', s, at, p);
    EffectIsOwn(w.nodes[s.at], s);
    forall t | t in w'.tasks
      ensures !Stale(t, w'.nodes[at], p)
    {
      if s.at == at {
        if t in w.tasks {
          StepLeavesNoneStale(w.nodes[at], s, p, t);
        } else {
          StepMakesNoneStale(w.nodes[at], s, p, t);
        }
      }
    }
  }

  lemma {:induction false} RunKeepsNoneStale(run: seq<World>, steps: seq<Step>, i: nat, at: PeerId, p: PeerId)
    requires IsTrace(run, steps) && NeverAlters(steps, at, p) && i <= |steps| && p != ""
    requires AllKeyed(run[0]) && NoneStale(run[0], at, p)
    ensures AllKeyed(run[i]) && NoneStale(run[i], at, p)
  {
    if i > 0 {
      RunKeepsNoneStale(run, steps, i - 1, at, p);
      var s := steps[i - 1];
      assert NextBy(run[i - 1], run[i - 1 + 1], s) && !Alters(s, at, p);
      NextKeepsNoneStale(run[i - 1], run[i], s, at, p);
    }
  }

  lemma RunTellsSetting(run: seq<World>, steps: seq<Step>, i: nat, at: PeerId, p: PeerId)
    requires IsTrace(run, steps) && NeverAlters(steps, at, p) && i < |steps| && p != ""
    requires AllKeyed(run[0]) && NoneStale(run[0], at, p)
    ensures Enabled(run[i], steps[i]) && TellsSettingIn(run[i], steps[i], at, p)
  {
    RunKeepsNoneStale(run, steps, i, at, p);
    var s := steps[i];
    assert NextBy(run[i], run[i + 1], s);
    if s.at == at {
      StepTellsSetting(run[i].nodes[at], s, p);
    }
  }

  /** In every run from `w` in which `p` is not altered, `p` is told the setting of that moment or refused. */
  ghost predicate AlwaysTellsSetting(w: World, at: PeerId, p: PeerId) {
    forall run, steps, i :: IsTrace(run, steps) && run[0] == w && NeverAlters(steps, at, p) && 0 <= i < |steps| ==>
      Enabled(run[i], steps[i]) && TellsSettingIn(run[i], steps[i], at, p)
  }

  // ----- A stale copy is told

  lemma StaleSendTells(n: Node, t: Task, p: PeerId)
    requires Stale(t, n, p) && t.ExchangeSend?
    ensures !TellsSetting(n, Run(n.id, t), p)
  {
    var m := StatusReq(n.id, p, CreatePeerInfo(n, t.record, false));
    assert m in EffectOf(n, Run(n.id, t)).sent;
  }

  lemma StaleAnswerTells(n: Node, t: Task, p: PeerId, info: PeerStatusInfo)
    requires Stale(t, n, p) && t.Serve?
    ensures !TellsSetting(n, GetStatus(n.id, t, StatusReq(p, n.id, info)), p)
  {
    var m := StatusResp(n.id, p, CreatePeerInfo(n, t.record, false));
    assert m in EffectOf(n, GetStatus(n.id, t, StatusReq(p, n.id, info))).sent;
  }

  /** The last step of the run tells `p` something else than the setting. */
  ghost predicate Misleads(w: World, run: seq<World>, steps: seq<Step>, at: PeerId, p: PeerId) {
    && IsTrace(run, steps) && run[0] == w && NeverAlters(steps, at, p) && steps != []
    && var i := |steps| - 1; Enabled(run[i], steps[i]) && !TellsSettingIn(run[i], steps[i], at, p)
  }

  lemma OneMoreMisleads(w: World, run: seq<World>, steps: seq<Step>, at: PeerId, p: PeerId, s: Step)
    returns (run': seq<World>, steps': seq<Step>)
    requires IsTrace(run, steps) && run[0] == w && NeverAlters(steps, at, p) && s.at == at && !Alters(s, at, p)
    requires var v := run[|steps|]; Enabled(v, s) && v.nodes[at].id == at && !TellsSetting(v.nodes[at], s, p)
    ensures Misleads(w, run', steps', at, p)
  {
    run', steps' := Extend(run, steps, s, EffectOf(run[|steps|].nodes[at], s));
  }

  lemma StaleExchangeMisleads(w: World, at: PeerId, p: PeerId, t: Task) returns (run: seq<World>, steps: seq<Step>)
    requires AllKeyed(w) && at in w.nodes && t in w.tasks && Stale(t, w.nodes[at], p) && !t.Serve?
    ensures Misleads(w, run, steps, at, p)
  {
    run, steps := [w], [];
    var send := t;
    if t.Exchange? {
      var n := w.nodes[at];
      send := ExchangeSend(at, p, t.record);
      run, steps := Extend(run, steps, Run(at, t), Effect(n.(ingoing := n.ingoing - {p}), {}, {send}));
    }
    StaleSendTells(run[|steps|].nodes[at], send, p);
    run, steps := OneMoreMisleads(w, run, steps, at, p, Run(at, send));
  }

  lemma StaleStreamMisleads(w: World, at: PeerId, p: PeerId, t: Task) returns (run: seq<World>, steps: seq<Step>)
    requires AllKeyed(w) && at in w.nodes && p in w.nodes && at != p && at != ""
    requires t in w.tasks && Stale(t, w.nodes[at], p) && t.Serve?
    ensures Misleads(w, run, steps, at, p)
  {
    var info;
    run, steps, info := Blocking.Asks(w, at, p);
    StaleAnswerTells(w.nodes[at], t, p, info);
    run, steps := OneMoreMisleads(w, run, steps, at, p, GetStatus(at, t, StatusReq(p, at, info)));
  }

  lemma UpdateStep(w: World, at: PeerId, p: PeerId, alias: string, domain: string, allow: bool, ip: IPText)
    returns (w': World, t: Task)
    requires AllKeyed(w) && at in w.nodes && p != "" && UpdateAllowed(w.nodes[at], p, alias, ip)
    ensures NextBy(w, w', Update(at, p, alias, domain, allow, ip)) && w.tasks <= w'.tasks && t in w'.tasks
    ensures AllKeyed(w') && UpdateAllowed(w'.nodes[at], p, alias, ip) && w'.nodes[at].blocked == w.nodes[at].blocked
    ensures AllowsIn(w', at, p) == allow && t.Exchange? && Copies(t, at, p) && t.record.weAllow == allow
  {
    var n := w.nodes[at];
    var m := UpdatePeerSettings(n, p, alias, domain, allow, ip);
    t := Exchange(at, p, GetPeer(m.known, p));
    UpdateAllows(n, p, alias, domain, allow, ip, p);
    w' := Done(w, at, Effect(m, {}, {t}));
    assert EffectOf(n, Update(at, p, alias, domain, allow, ip)) == Effect(m, {}, {t});
  }

  /** Granting and revoking in a row: the status of the grant can go out after the revocation. */
  lemma RevokedAndToldOtherwise(w: World, at: PeerId, p: PeerId, alias: string, domain: string, ip: IPText)
    returns (w1: World, w2: World, run: seq<World>, steps: seq<Step>)
    requires AllKeyed(w) && at in w.nodes && p != "" && p !in w.nodes[at].blocked
    requires UpdateAllowed(w.nodes[at], p, alias, ip)
    ensures NextBy(w, w1, Update(at, p, alias, domain, true, ip))
    ensures NextBy(w1, w2, Update(at, p, alias, domain, false, ip)) && !AllowsIn(w2, at, p)
    ensures Misleads(w2, run, steps, at, p)
  {
    var t, u;
    w1, t := UpdateStep(w, at, p, alias, domain, true, ip);
    w2, u := UpdateStep(w1, at, p, alias, domain, false, ip);
    run, steps := StaleExchangeMisleads(w2, at, p, t);
  }

  /**
   * The exact condition: as long as a peer is not altered, it is told our current setting in
   * every run, if and only if no goroutine carries a copy of its record with another setting
   * that it will send.
   */
  lemma ToldSettingExactlyWhen(w: World, at: PeerId, p: PeerId)
    requires AllKeyed(w) && at in w.nodes && p in w.nodes && at != p && at != "" && p != ""
    ensures AlwaysTellsSetting(w, at, p) <==> NoneStale(w, at, p)
  {
    if NoneStale(w, at, p) {
      forall run, steps, i | IsTrace(run, steps) && run[0] == w && NeverAlters(steps, at, p) && 0 <= i < |steps|
        ensures Enabled(run[i], steps[i]) && TellsSettingIn(run[i], steps[i], at, p)
      {
        RunTellsSetting(run, steps, i, at, p);
      }
    } else {
      var t :| t in w.tasks && Stale(t, w.nodes[at], p);
      var run, steps;
      if t.Serve? {
        run, steps := StaleStreamMisleads(w, at, p, t);
      } else {
        run, steps := StaleExchangeMisleads(w, at, p, t);
      }
    }
  }
}
