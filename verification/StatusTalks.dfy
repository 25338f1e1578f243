/**
 * Convergence of the status exchange for every interleaving. Two friends do nothing but
 * exchange statuses, in any number, order and overlap, with messages lost or repeated, while
 * the other nodes do what they like. Whoever has processed a status agrees with its sender;
 * and once both sides are settled, every later status also reports the right exit node.
 */
module StatusTalks {
  import opened Friends
  import opened NodeState
  import opened Peers
  import opened StatusExchange
  import opened StatusRuns

  // ----- Which steps

  /** A step of one of the two in a status exchange with the other. */
  predicate Talks(s: Step, x: PeerId, y: PeerId) {
    s.at == x &&
    match s
    case Refresh(_, peer) => peer == y
    case OpenStatus(_, peer) => peer == y
    case GetStatus(_, task, msg) => msg.src == y
    case GetStatusResp(_, task, msg) => msg.src == y
    case Run(_, task) => task.peer == y && (task.Exchange? || task.ExchangeSend? || task.Process?)
    case _ => false
  }

  /** The two only talk to each other; others are free. */
  predicate Undisturbing(s: Step, a: PeerId, b: PeerId) {
    (s.at != a && s.at != b) || Talks(s, a, b) || Talks(s, b, a)
  }

  /** `x` processes a status of `y`. */
  predicate Hears(s: Step, x: PeerId, y: PeerId) {
    Talks(s, x, y) && (s.GetStatusResp? || (s.Run? && s.task.Process?))
  }

  // ----- What does not change, and what is learned

  /** What `x` holds about `y` once it has heard from it. */
  ghost predicate Knows(x: Node, y: Node) {
    && y.id in x.known && x.id in y.known
    && x.known[y.id].confirmed && !x.known[y.id].declined
    && x.known[y.id].name == y.name && x.known[y.id].allowed == y.known[x.id].weAllow
    && x.known[y.id].alias != "" && ChoiceSettled(x, y.id)
  }

  /** `x` came from `x0` by hearing from `y` only; if they were settled its choice is fixed. */
  ghost predicate Grown(x: Node, x0: Node, y: PeerId, settled: bool) {
    && x.id == x0.id && x.name == x0.name && x.blocked == x0.blocked && y in x0.known
    && Keyed(x.known) && x.known == x0.known[y := GetPeer(x.known, y)] && x.known[y].weAllow == x0.known[y].weAllow
    && (settled ==> x.using == x0.using && ChoiceSettled(x, y) && x.known[y].allowed == x0.known[y].allowed)
  }

  /** A status that `x0` may send to `y` at any time. */
  ghost predicate From(info: PeerStatusInfo, x0: Node, y: PeerId, settled: bool) {
    && y in x0.known && !info.declined && info.name == x0.name && info.allow == x0.known[y].weAllow
    && (settled ==> info.using == x0.using)
  }

  ghost predicate MsgFrom(m: Message, x0: Node, y: PeerId, settled: bool) {
    (m.StatusReq? || m.StatusResp?) && m.src == x0.id && m.dst == y ==> From(m.info, x0, y, settled)
  }

  /** A pending goroutine of `x0` about `y0`. */
  ghost predicate TaskOf(t: Task, x0: Node, y0: Node, settled: bool) {
    t.at == x0.id && t.peer == y0.id ==>
      && y0.id in x0.known
      && (t.Exchange? || t.ExchangeSend? || t.Serve? ==> t.record.weAllow == x0.known[y0.id].weAllow)
      && (t.Serve? || t.AwaitStatus? ==> !t.blocked)
      && (t.Process? ==> From(t.info, y0, x0.id, settled))
  }

  ghost predicate Heard(x: Node, y0: Node, settled: bool) {
    Knows(x, y0) && (settled ==> x.known[y0.id].reportedUsing == y0.using)
  }

  ghost predicate Settling(x0: Node, y0: Node, settled: bool) {
    Friendly(x0, y0) && (settled ==> Settled(x0, y0))
  }

  /** Hearing a status that `y0` may have sent at any time. */
  lemma HearingTeaches(x: Node, x0: Node, y0: Node, info: PeerStatusInfo, settled: bool)
    requires Settling(x0, y0, settled) && Grown(x, x0, y0.id, settled) && From(info, y0, x0.id, settled)
    ensures var x' := ProcessStatus(x, y0.id, info);
            Grown(x', x0, y0.id, settled) && Heard(x', y0, settled)
  {
    StatusSettles(x, y0.id, info);
  }

  // ----- One step of one of the two

  /** The effect of a step of `x0` leaves everything as it may be. */
  ghost predicate Fine(e: Effect, x0: Node, y0: Node, settled: bool) {
    && Grown(e.node, x0, y0.id, settled)
    && (forall m :: m in e.sent ==> m.src == x0.id && MsgFrom(m, x0, y0.id, settled))
    && (forall t :: t in e.spawned ==> t.at == x0.id && TaskOf(t, x0, y0, settled))
  }

  ghost predicate InputFine(x0: Node, y0: Node, s: Step, settled: bool) {
    && (s.Run? || s.GetStatus? || s.GetStatusResp? ==> TaskOf(s.task, x0, y0, settled))
    && (s.GetStatus? || s.GetStatusResp? ==> MsgFrom(s.msg, y0, x0.id, settled))
  }

  lemma HearEffect(x: Node, x0: Node, y0: Node, s: Step, settled: bool)
    requires Settling(x0, y0, settled) && Grown(x, x0, y0.id, settled)
    requires Hears(s, x0.id, y0.id) && Applies(x, s) && InputFine(x0, y0, s, settled)
    ensures Fine(EffectOf(x, s), x0, y0, settled) && Heard(EffectOf(x, s).node, y0, settled)
  {
    var info := if s.GetStatusResp? then s.msg.info else s.task.info;
    HearingTeaches(x, x0, y0, info, settled);
    assert EffectOf(x, s) == Effect(ProcessStatus(x, y0.id, info), {}, {});
  }

  /** `x` with other pending requests. */
  ghost predicate SameButRequests(n: Node, x: Node) {
    n == x.(ingoing := n.ingoing, outgoing := n.outgoing)
  }

  lemma SendEffect(x: Node, x0: Node, y0: Node, t: Task, settled: bool)
    requires Settling(x0, y0, settled) && Grown(x, x0, y0.id, settled)
    requires t.peer == y0.id && t.at == x0.id && (t.Exchange? || t.ExchangeSend?) && TaskOf(t, x0, y0, settled)
    ensures Fine(RunTask(x, t), x0, y0, settled) && SameButRequests(RunTask(x, t).node, x)
  {
    if t.Exchange? {
      assert RunTask(x, t)
          == Effect(x.(ingoing := x.ingoing - {y0.id}), {}, {ExchangeSend(x0.id, y0.id, t.record)});
    } else {
      var info := CreatePeerInfo(x, t.record, false);
      assert From(info, x0, y0.id, settled);
      assert RunTask(x, t)
          == Effect(x, {StatusReq(x0.id, y0.id, info)}, {AwaitStatus(x0.id, y0.id, false)});
    }
  }

  lemma AnswerEffect(x: Node, x0: Node, y0: Node, s: Step, settled: bool)
    requires Settling(x0, y0, settled) && Grown(x, x0, y0.id, settled)
    requires s.GetStatus? && Talks(s, x0.id, y0.id) && Applies(x, s) && InputFine(x0, y0, s, settled)
    ensures Fine(EffectOf(x, s), x0, y0, settled) && SameButRequests(EffectOf(x, s).node, x)
  {
    var info := CreatePeerInfo(x, s.task.record, false);
    assert From(info, x0, y0.id, settled);
    assert EffectOf(x, s) == Effect(x.(outgoing := x.outgoing - {y0.id}), {StatusResp(x0.id, y0.id, info)},
                                    {Process(x0.id, y0.id, s.msg.info)});
  }

  /** The other steps send or prepare a status, and change pending requests only. */
  lemma SpeakEffect(x: Node, x0: Node, y0: Node, s: Step, settled: bool)
    requires Settling(x0, y0, settled) && Grown(x, x0, y0.id, settled)
    requires Talks(s, x0.id, y0.id) && !Hears(s, x0.id, y0.id) && Applies(x, s) && InputFine(x0, y0, s, settled)
    ensures Fine(EffectOf(x, s), x0, y0, settled) && SameButRequests(EffectOf(x, s).node, x)
  {
    if s.Run? {
      SendEffect(x, x0, y0, s.task, settled);
    } else if s.GetStatus? {
      AnswerEffect(x, x0, y0, s, settled);
    }
  }

  lemma TalkEffect(x: Node, x0: Node, y0: Node, s: Step, settled: bool)
    requires Settling(x0, y0, settled) && Grown(x, x0, y0.id, settled)
    requires Talks(s, x0.id, y0.id) && Applies(x, s) && InputFine(x0, y0, s, settled)
    ensures Fine(EffectOf(x, s), x0, y0, settled)
    ensures Hears(s, x0.id, y0.id) || Heard(x, y0, settled) ==> Heard(EffectOf(x, s).node, y0, settled)
  {
    if Hears(s, x0.id, y0.id) {
      HearEffect(x, x0, y0, s, settled);
    } else {
      SpeakEffect(x, x0, y0, s, settled);
    }
  }

  /** A step belongs to its node: what it sends and leaves behind carries the node's id. */
  ghost predicate Own(n: Node, e: Effect) {
    && e.node.id == n.id
    && (forall m :: m in e.sent ==> m.src == n.id)
    && (forall t :: t in e.spawned ==> t.at == n.id)
  }

  lemma EffectIsOwn(n: Node, s: Step)
    requires Applies(n, s)
    ensures Own(n, EffectOf(n, s))
  {
    if s.Run? {
      TaskIsOwn(n, s.task);
    }
  }

  lemma TaskIsOwn(n: Node, t: Task)
    requires Runs(t)
    ensures Own(n, RunTask(n, t))
  {
  }

  // ----- Worlds

  ghost predicate Named(w: World) {
    forall id :: id in w.nodes ==> w.nodes[id].id == id
  }

  /** What every world of such a run looks like, from the side of `x0`. */
  ghost predicate Side(w: World, x0: Node, y0: Node, settled: bool) {
    && x0.id in w.nodes && Grown(w.nodes[x0.id], x0, y0.id, settled)
    && (forall m :: m in w.msgs ==> MsgFrom(m, x0, y0.id, settled))
    && (forall t :: t in w.tasks ==> TaskOf(t, x0, y0, settled))
  }

  ghost predicate HeardIn(w: World, x0: Node, y0: Node, settled: bool) {
    x0.id in w.nodes && Heard(w.nodes[x0.id], y0, settled)
  }

  /** A step of `x0` keeps its own side ... */
  lemma OwnStepKeeps(w: World, w': World, s: Step, x0: Node, y0: Node, settled: bool)
    requires Settling(x0, y0, settled) && Side(w, x0, y0, settled) && Side(w, y0, x0, settled)
    requires NextBy(w, w', s) && Talks(s, x0.id, y0.id)
    ensures Side(w', x0, y0, settled)
    ensures Hears(s, x0.id, y0.id) || HeardIn(w, x0, y0, settled) ==> HeardIn(w', x0, y0, settled)
  {
    TalkEffect(w.nodes[s.at], x0, y0, s, settled);
  }

  /** ... and nobody else's step touches it. */
  lemma OtherStepKeeps(w: World, w': World, s: Step, x0: Node, y0: Node, settled: bool)
    requires Side(w, x0, y0, settled) && Named(w) && NextBy(w, w', s) && s.at != x0.id
    ensures Side(w', x0, y0, settled)
    ensures HeardIn(w, x0, y0, settled) ==> HeardIn(w', x0, y0, settled)
  {
    EffectIsOwn(w.nodes[s.at], s);
    var e := EffectOf(w.nodes[s.at], s);
    assert forall m :: m in e.sent ==> MsgFrom(m, x0, y0.id, settled);
    assert forall t :: t in e.spawned ==> TaskOf(t, x0, y0, settled);
  }

  lemma StepKeepsNamed(w: World, w': World, s: Step)
    requires Named(w) && NextBy(w, w', s)
    ensures Named(w')
  {
    EffectIsOwn(w.nodes[s.at], s);
  }

  lemma StepKeepsSide(w: World, w': World, s: Step, x0: Node, y0: Node, settled: bool)
    requires Settling(x0, y0, settled) && Side(w, x0, y0, settled) && Side(w, y0, x0, settled)
    requires Named(w) && NextBy(w, w', s) && Undisturbing(s, x0.id, y0.id)
    ensures Side(w', x0, y0, settled)
    ensures Hears(s, x0.id, y0.id) || HeardIn(w, x0, y0, settled) ==> HeardIn(w', x0, y0, settled)
  {
    if s.at == x0.id {
      OwnStepKeeps(w, w', s, x0, y0, settled);
    } else {
      OtherStepKeeps(w, w', s, x0, y0, settled);
    }
  }

  /** Both sides, and who has heard. */
  ghost predicate Talking(w: World, a: Node, b: Node, heardA: bool, heardB: bool, settled: bool) {
    && Named(w) && Side(w, a, b, settled) && Side(w, b, a, settled)
    && (heardA ==> HeardIn(w, a, b, settled)) && (heardB ==> HeardIn(w, b, a, settled))
  }

  lemma StepKeepsTalking(w: World, w': World, s: Step, a: Node, b: Node, heardA: bool, heardB: bool, settled: bool)
    requires Settling(a, b, settled) && Settling(b, a, settled) && Talking(w, a, b, heardA, heardB, settled)
    requires NextBy(w, w', s) && Undisturbing(s, a.id, b.id)
    ensures Talking(w', a, b, heardA || Hears(s, a.id, b.id), heardB || Hears(s, b.id, a.id), settled)
  {
    StepKeepsNamed(w, w', s);
    StepKeepsSide(w, w', s, a, b, settled);
    StepKeepsSide(w, w', s, b, a, settled);
  }

  // ----- Runs

  /** Nothing between the two is in flight or pending. */
  ghost predicate Silent(w: World, a: PeerId, b: PeerId) {
    && (forall m :: m in w.msgs ==> !(m.src == a && m.dst == b) && !(m.src == b && m.dst == a))
    && (forall t :: t in w.tasks ==> !(t.at == a && t.peer == b) && !(t.at == b && t.peer == a))
  }

  ghost predicate HasHeard(steps: seq<Step>, x: PeerId, y: PeerId) {
    exists j :: 0 <= j < |steps| && Hears(steps[j], x, y)
  }

  /** A run that starts silent, and in which the two do nothing but talk to each other. */
  ghost predicate IsTalk(run: seq<World>, steps: seq<Step>, a: Node, b: Node) {
    && IsTrace(run, steps) && Named(run[0]) && At(run[0], a, b) && Silent(run[0], a.id, b.id)
    && forall j :: 0 <= j < |steps| ==> Undisturbing(steps[j], a.id, b.id)
  }

  lemma SilentStart(w: World, a: Node, b: Node, settled: bool)
    requires Settling(a, b, settled) && Settling(b, a, settled)
    requires Named(w) && At(w, a, b) && Silent(w, a.id, b.id)
    ensures Talking(w, a, b, false, false, settled)
  {
    assert a.known[b.id := a.known[b.id]] == a.known && b.known[a.id := b.known[a.id]] == b.known;
  }

  lemma {:induction false} TalkKeeps(run: seq<World>, steps: seq<Step>, a: Node, b: Node, settled: bool)
    requires IsTalk(run, steps, a, b) && Settling(a, b, settled) && Settling(b, a, settled)
    ensures Talking(run[|steps|], a, b, HasHeard(steps, a.id, b.id), HasHeard(steps, b.id, a.id), settled)
    decreases |steps|
  {
    if steps == [] {
      SilentStart(run[0], a, b, settled);
    } else {
      var n := |steps| - 1;
      TalkKeeps(run[..n + 1], steps[..n], a, b, settled);
      assert NextBy(run[n], run[n + 1], steps[n]);
      StepKeepsTalking(run[n], run[n + 1], steps[n], a, b,
                       HasHeard(steps[..n], a.id, b.id), HasHeard(steps[..n], b.id, a.id), settled);
      HeardSoFar(steps, a.id, b.id);
      HeardSoFar(steps, b.id, a.id);
    }
  }

  lemma HeardSoFar(steps: seq<Step>, x: PeerId, y: PeerId)
    requires steps != []
    ensures HasHeard(steps, x, y) <==> Hears(steps[|steps| - 1], x, y) || HasHeard(steps[..|steps| - 1], x, y)
  {
    if HasHeard(steps[..|steps| - 1], x, y) {
      var j :| 0 <= j < |steps| - 1 && Hears(steps[..|steps| - 1][j], x, y);
      assert Hears(steps[j], x, y);
    }
    if HasHeard(steps, x, y) {
      var j :| 0 <= j < |steps| && Hears(steps[j], x, y);
      assert j < |steps| - 1 ==> Hears(steps[..|steps| - 1][j], x, y);
    }
  }

  /**
   * Convergence for every interleaving: at the end of such a run the two are still friends, a
   * side that has heard from the other agrees with it, and if both have, they are settled.
   */
  lemma EveryTalkConverges(run: seq<World>, steps: seq<Step>, a: Node, b: Node) returns (x: Node, y: Node)
    requires Friendly(a, b) && IsTalk(run, steps, a, b)
    ensures x.id == a.id && y.id == b.id && At(run[|steps|], x, y) && Friendly(x, y)
    ensures HasHeard(steps, a.id, b.id) ==> Agrees(x, y)
    ensures HasHeard(steps, b.id, a.id) ==> Agrees(y, x)
    ensures HasHeard(steps, a.id, b.id) && HasHeard(steps, b.id, a.id) ==> Settled(x, y)
    ensures forall id :: id in a.known && id != b.id ==> id in x.known && x.known[id] == a.known[id]
    ensures forall id :: id in b.known && id != a.id ==> id in y.known && y.known[id] == b.known[id]
  {
    TalkKeeps(run, steps, a, b, false);
    x, y := run[|steps|].nodes[a.id], run[|steps|].nodes[b.id];
  }

  /**
   * And from a settled pair: it stays settled with both choices as they are, and a side that
   * has heard from the other reports the other's exit node correctly.
   */
  lemma EveryLaterTalkReports(run: seq<World>, steps: seq<Step>, a: Node, b: Node) returns (x: Node, y: Node)
    requires Settled(a, b) && IsTalk(run, steps, a, b)
    ensures x.id == a.id && y.id == b.id && At(run[|steps|], x, y) && x.using == a.using && y.using == b.using
    ensures b.id in x.known && a.id in y.known
    ensures HasHeard(steps, a.id, b.id) ==> x.known[b.id].reportedUsing == y.using
    ensures HasHeard(steps, b.id, a.id) ==> y.known[a.id].reportedUsing == x.using
  {
    TalkKeeps(run, steps, a, b, true);
    x, y := run[|steps|].nodes[a.id], run[|steps|].nodes[b.id];
  }
}
