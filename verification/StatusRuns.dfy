/**
 * The status exchange in the protocol itself: from any world with two friends there is a run
 * of steps that is one complete exchange, and one that is two of them in a row.
 */
module StatusRuns {
  import opened Friends
  import opened NodeState
  import opened Peers
  import opened StatusExchange

  ghost predicate IsTrace(run: seq<World>, steps: seq<Step>) {
    && |run| == |steps| + 1
    && forall i {:trigger steps[i]} :: 0 <= i < |steps| ==> NextBy(run[i], run[i + 1], steps[i])
  }

  // ----- One complete exchange is a run

  /** The step with nothing lost, when its effect is `e`. */
  ghost function Done(w: World, at: PeerId, e: Effect): World {
    World(w.nodes[at := e.node], w.msgs + e.sent, w.tasks + e.spawned)
  }

  /** The node takes the step with this effect. */
  ghost predicate Steps(n: Node, s: Step, e: Effect) {
    s.at == n.id && Applies(n, s) && EffectOf(n, s) == e
  }

  /** The task and the message that the step takes up are there. */
  ghost predicate Ready(w: World, s: Step) {
    && (s.Run? || s.GetAuthResp? || s.GetStatus? || s.GetStatusResp? ==> s.task in w.tasks)
    && (s.GetAuth? || s.GetAuthResp? || s.GetStatus? || s.GetStatusResp? ==> s.msg in w.msgs)
    && (s.OpenStatus? ==> s.peer in w.nodes)
  }

  lemma Extend(run: seq<World>, steps: seq<Step>, s: Step, e: Effect) returns (run': seq<World>, steps': seq<Step>)
    requires IsTrace(run, steps) && s.at in run[|steps|].nodes
    requires Steps(run[|steps|].nodes[s.at], s, e) && Ready(run[|steps|], s)
    ensures IsTrace(run', steps') && run'[0] == run[0] && run'[|steps'|] == Done(run[|steps|], s.at, e)
    ensures steps' == steps + [s] && run'[|steps|] == run[|steps|]
  {
    run', steps' := run + [Done(run[|steps|], s.at, e)], steps + [s];
    forall i {:trigger steps'[i]} | 0 <= i < |steps'|
      ensures NextBy(run'[i], run'[i + 1], steps'[i])
    {
      if i < |steps| {
        assert NextBy(run[i], run[i + 1], steps[i]);
      }
    }
  }

  /** Three steps of one node. */
  lemma ExtendByThree(run: seq<World>, steps: seq<Step>,
                      s1: Step, e1: Effect, s2: Step, e2: Effect, s3: Step, e3: Effect)
    returns (run': seq<World>, steps': seq<Step>)
    requires IsTrace(run, steps) && s1.at in run[|steps|].nodes && s1.at == s2.at == s3.at
    requires Steps(run[|steps|].nodes[s1.at], s1, e1) && Steps(e1.node, s2, e2) && Steps(e2.node, s3, e3)
    requires var w0 := run[|steps|]; var w1 := Done(w0, s1.at, e1);
             Ready(w0, s1) && Ready(w1, s2) && Ready(Done(w1, s1.at, e2), s3)
    ensures IsTrace(run', steps') && run'[0] == run[0]
    ensures run'[|steps'|] == Done(Done(Done(run[|steps|], s1.at, e1), s1.at, e2), s1.at, e3)
  {
    run', steps' := Extend(run, steps, s1, e1);
    run', steps' := Extend(run', steps', s2, e2);
    run', steps' := Extend(run', steps', s3, e3);
  }

  // The steps of the side that asks ...

  lemma InitiatorSteps(a: Node, b: Node)
    requires Friendly(a, b)
    ensures var record := a.known[b.id];
            && Steps(a, Refresh(a.id, b.id), Effect(a, {}, {Exchange(a.id, b.id, record)}))
            && Steps(a, Run(a.id, Exchange(a.id, b.id, record)),
                     Effect(Asking(a, b.id), {}, {ExchangeSend(a.id, b.id, record)}))
            && Steps(Asking(a, b.id), Run(a.id, ExchangeSend(a.id, b.id, record)),
                     Effect(Asking(a, b.id), {StatusReq(a.id, b.id, Request(a, b.id))},
                            {AwaitStatus(a.id, b.id, false)}))
  {
  }

  lemma InitiatorFinishes(a: Node, b: Node)
    requires Friendly(a, b)
    ensures var answer := StatusResp(b.id, a.id, Reply(b, a.id));
            Steps(Asking(a, b.id), GetStatusResp(a.id, AwaitStatus(a.id, b.id, false), answer),
                  Effect(Exchanged(a, b).0, {}, {}))
  {
  }

  // ... and those of the side that answers.

  lemma ResponderSteps(a: Node, b: Node)
    requires Friendly(a, b)
    ensures var serve, ask := Serve(b.id, a.id, b.known[a.id], false), StatusReq(a.id, b.id, Request(a, b.id));
            && Steps(b, OpenStatus(b.id, a.id), Effect(b, {}, {serve}))
            && Steps(b, GetStatus(b.id, serve, ask),
                     Effect(Serving(b, a.id), {StatusResp(b.id, a.id, Reply(b, a.id))},
                            {Process(b.id, a.id, Request(a, b.id))}))
  {
  }

  lemma ResponderFinishes(a: Node, b: Node)
    requires Friendly(a, b)
    ensures Steps(Serving(b, a.id), Run(b.id, Process(b.id, a.id, Request(a, b.id))),
                  Effect(Exchanged(a, b).1, {}, {}))
  {
  }

  /** `a` and `b` are these two nodes of the world. */
  ghost predicate At(w: World, a: Node, b: Node) {
    a.id in w.nodes && w.nodes[a.id] == a && b.id in w.nodes && w.nodes[b.id] == b
  }

  /** The initiator up to its request. */
  lemma Asks(w: World, a: Node, b: Node) returns (run: seq<World>, steps: seq<Step>)
    requires Friendly(a, b) && At(w, a, b)
    ensures IsTrace(run, steps) && run[0] == w
    ensures var v := run[|steps|];
            && v.nodes == w.nodes[a.id := Asking(a, b.id)] && AwaitStatus(a.id, b.id, false) in v.tasks
            && StatusReq(a.id, b.id, Request(a, b.id)) in v.msgs
  {
    InitiatorSteps(a, b);
    var record, waiting := a.known[b.id], AwaitStatus(a.id, b.id, false);
    var ask := StatusReq(a.id, b.id, Request(a, b.id));
    run, steps := ExtendByThree([w], [],
      Refresh(a.id, b.id), Effect(a, {}, {Exchange(a.id, b.id, record)}),
      Run(a.id, Exchange(a.id, b.id, record)), Effect(Asking(a, b.id), {}, {ExchangeSend(a.id, b.id, record)}),
      Run(a.id, ExchangeSend(a.id, b.id, record)), Effect(Asking(a, b.id), {ask}, {waiting}));
    assert run[|steps|].nodes == w.nodes[a.id := Asking(a, b.id)];
  }

  /** The other side from there: it answers and processes the request. */
  lemma Serves(run0: seq<World>, steps0: seq<Step>, a: Node, b: Node) returns (run: seq<World>, steps: seq<Step>)
    requires IsTrace(run0, steps0) && Friendly(a, b)
    requires At(run0[|steps0|], Asking(a, b.id), b)
    requires StatusReq(a.id, b.id, Request(a, b.id)) in run0[|steps0|].msgs
    ensures IsTrace(run, steps) && run[0] == run0[0]
    ensures var u, v := run0[|steps0|], run[|steps|];
            && v.nodes == u.nodes[b.id := Exchanged(a, b).1] && u.tasks <= v.tasks
            && StatusResp(b.id, a.id, Reply(b, a.id)) in v.msgs
  {
    ResponderSteps(a, b);
    ResponderFinishes(a, b);
    var u := run0[|steps0|];
    var serve, ask := Serve(b.id, a.id, b.known[a.id], false), StatusReq(a.id, b.id, Request(a, b.id));
    var answer, process := StatusResp(b.id, a.id, Reply(b, a.id)), Process(b.id, a.id, Request(a, b.id));
    run, steps := ExtendByThree(run0, steps0,
      OpenStatus(b.id, a.id), Effect(b, {}, {serve}),
      GetStatus(b.id, serve, ask), Effect(Serving(b, a.id), {answer}, {process}),
      Run(b.id, process), Effect(Exchanged(a, b).1, {}, {}));
    assert run[|steps|].nodes == u.nodes[b.id := Exchanged(a, b).1];
  }

  /**
   * From every world with two friends, a run of protocol steps that is one complete exchange:
   * the two nodes end as `Exchanged` says, and no other node changes.
   */
  lemma ExchangeIsARun(w: World, a: Node, b: Node) returns (run: seq<World>, steps: seq<Step>)
    requires Friendly(a, b) && At(w, a, b)
    ensures IsTrace(run, steps) && run[0] == w
    ensures run[|steps|].nodes == w.nodes[a.id := Exchanged(a, b).0][b.id := Exchanged(a, b).1]
  {
    run, steps := Asks(w, a, b);
    run, steps := Serves(run, steps, a, b);
    InitiatorFinishes(a, b);
    var answer := StatusResp(b.id, a.id, Reply(b, a.id));
    run, steps := Extend(run, steps, GetStatusResp(a.id, AwaitStatus(a.id, b.id, false), answer),
                         Effect(Exchanged(a, b).0, {}, {}));
    assert run[|steps|].nodes == w.nodes[a.id := Exchanged(a, b).0][b.id := Exchanged(a, b).1];
  }

  /** Two exchanges in a row: both sides end settled, with correct reports of each other's exit node. */
  lemma TwoExchangesReport(w: World, a: Node, b: Node)
    returns (run: seq<World>, steps: seq<Step>, x: Node, y: Node)
    requires Friendly(a, b) && At(w, a, b)
    ensures IsTrace(run, steps) && run[0] == w && run[|steps|].nodes == w.nodes[a.id := x][b.id := y]
    ensures x.id == a.id && y.id == b.id && Settled(x, y)
    ensures x.known[b.id].reportedUsing == y.using && y.known[a.id].reportedUsing == x.using
  {
    var run1, steps1 := ExchangeIsARun(w, a, b);
    var (a', b') := Exchanged(a, b);
    OneExchangeConverges(a, b);
    var run2, steps2 := ExchangeIsARun(run1[|steps1|], a', b');
    SecondExchangeReports(a', b');
    run, steps := Join(run1, steps1, run2, steps2);
    x, y := Exchanged(a', b').0, Exchanged(a', b').1;
    assert w.nodes[a.id := a'][b.id := b'][a.id := x][b.id := y] == w.nodes[a.id := x][b.id := y];
  }

  lemma Join(run1: seq<World>, steps1: seq<Step>, run2: seq<World>, steps2: seq<Step>)
    returns (run: seq<World>, steps: seq<Step>)
    requires IsTrace(run1, steps1) && IsTrace(run2, steps2) && run1[|steps1|] == run2[0]
    ensures IsTrace(run, steps) && run[0] == run1[0] && run[|steps|] == run2[|steps2|]
  {
    run, steps := run1 + run2[1..], steps1 + steps2;
    forall i {:trigger steps[i]} | 0 <= i < |steps|
      ensures NextBy(run[i], run[i + 1], steps[i])
    {
      if i < |steps1| {
        assert NextBy(run1[i], run1[i + 1], steps1[i]);
      } else {
        assert NextBy(run2[i - |steps1|], run2[i - |steps1| + 1], steps2[i - |steps1|]);
      }
    }
  }
}
