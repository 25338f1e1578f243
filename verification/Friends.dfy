/**
 * The friend and status protocol as a system of honest nodes (service/auth_status.go with the
 * handlers of api/peers.go): nodes, messages in flight, and the unfinished part of each
 * request handler. A step is one config phase of one node. Whatever a step sends or leaves to
 * be done may be lost; what is in flight may be delivered late, out of order or repeatedly.
 */
module Friends {
  import opened Aliases
  import opened NodeState
  import opened Peers

  datatype Message =
    | AuthReq(src: PeerId, dst: PeerId, name: string)
    | AuthResp(src: PeerId, dst: PeerId, response: AuthResponse)
    | StatusReq(src: PeerId, dst: PeerId, info: PeerStatusInfo)
    | StatusResp(src: PeerId, dst: PeerId, info: PeerStatusInfo)

  /** What a goroutine of node `at` still has to do about peer `peer`. */
  datatype Task =
    | SendAuth(at: PeerId, peer: PeerId, name: string)
    | AwaitAuth(at: PeerId, peer: PeerId)
    | AutoAccept(at: PeerId, peer: PeerId, name: string)
    | Block(at: PeerId, peer: PeerId)
    | Reread(at: PeerId, peer: PeerId)                            // before ExchangeNewStatusInfo
    | Exchange(at: PeerId, peer: PeerId, record: KnownPeer)
    | ExchangeSend(at: PeerId, peer: PeerId, record: KnownPeer)
    | AwaitStatus(at: PeerId, peer: PeerId, blocked: bool)
    | Serve(at: PeerId, peer: PeerId, record: KnownPeer, blocked: bool)
    | Process(at: PeerId, peer: PeerId, info: PeerStatusInfo)

  datatype World = World(nodes: map<PeerId, Node>, msgs: set<Message>, tasks: set<Task>)

  datatype Step =
    // the user
    | Invite(at: PeerId, peer: PeerId, alias: string, ip: IPText)
    | Accept(at: PeerId, peer: PeerId, alias: string, ip: IPText)
    | Decline(at: PeerId, peer: PeerId)
    | Remove(at: PeerId, peer: PeerId)
    | Update(at: PeerId, peer: PeerId, alias: string, domain: string, allow: bool, ip: IPText)
    | Choose(at: PeerId, peer: PeerId)
    | Configure(at: PeerId, name: string, autoAccept: bool)
    // background activity
    | Refresh(at: PeerId, peer: PeerId)
    | Retry(at: PeerId, peer: PeerId)
    | Restarted(at: PeerId)
    // continuing a task
    | Run(at: PeerId, task: Task)
    // network
    | OpenStatus(at: PeerId, peer: PeerId)
    | GetAuth(at: PeerId, msg: Message)
    | GetAuthResp(at: PeerId, task: Task, msg: Message)
    | GetStatus(at: PeerId, task: Task, msg: Message)
    | GetStatusResp(at: PeerId, task: Task, msg: Message)

  /** What a step does: the node's new state, the messages sent and the work left behind. */
  datatype Effect = Effect(node: Node, sent: set<Message>, spawned: set<Task>)

  /** The step makes sense for the node it is a step of. */
  ghost predicate Applies(n: Node, s: Step) {
    match s
    case Invite(_, peer, _, _) => peer != n.id && peer != ""
    case Accept(_, peer, _, _) => peer != n.id && peer in n.ingoing
    case Decline(_, peer) => peer != n.id && peer in n.ingoing
    case Remove(_, peer) => peer in n.known
    case Refresh(_, peer) => peer in n.known
    case Retry(_, peer) => peer in n.outgoing
    case Run(_, task) => task.at == n.id && Runs(task)
    case OpenStatus(_, peer) => peer in n.known || peer in n.blocked
    case GetAuth(_, msg) => msg.AuthReq? && msg.dst == n.id
    case GetAuthResp(_, task, msg) => Answers(n, task, msg) && task.AwaitAuth? && msg.AuthResp?
    case GetStatus(_, task, msg) => Answers(n, task, msg) && task.Serve? && msg.StatusReq?
    case GetStatusResp(_, task, msg) => Answers(n, task, msg) && task.AwaitStatus? && msg.StatusResp?
    case _ => true
  }

  /** The step is possible: its task is pending, its message in flight. */
  ghost predicate Enabled(w: World, s: Step) {
    && s.at in w.nodes && Applies(w.nodes[s.at], s)
    && (s.Run? || s.GetAuthResp? || s.GetStatus? || s.GetStatusResp? ==> s.task in w.tasks)
    && (s.GetAuth? || s.GetAuthResp? || s.GetStatus? || s.GetStatusResp? ==> s.msg in w.msgs)
    && (s.OpenStatus? ==> s.peer in w.nodes)
  }

  /** Tasks that continue on their own, without waiting for a message. */
  predicate Runs(t: Task) {
    !t.AwaitAuth? && !t.AwaitStatus? && !t.Serve?
  }

  /** The message is for the waiting goroutine, from the peer it talks to. */
  predicate Answers(n: Node, t: Task, m: Message) {
    t.at == n.id && m.dst == n.id && m.src == t.peer
  }

  ghost function Quiet(n: Node): Effect {
    Effect(n, {}, {})
  }

  /** Adding a peer starts a goroutine only if the peer was added. */
  ghost function Adding(n: Node, peer: PeerId, name: string, alias: string, confirmed: bool, ip: IPText): Effect {
    if AddAllowed(n, peer, alias, ip)
    then Effect(AddPeer(n, peer, name, alias, confirmed, ip), {},
                (if confirmed then {} else {SendAuth(n.id, peer, n.name)}) + {Reread(n.id, peer)})
    else Quiet(n)
  }

  ghost function RunTask(n: Node, t: Task): Effect
    requires Runs(t)
  {
    match t
    case SendAuth(at, peer, name) =>
      Effect(n.(outgoing := n.outgoing[peer := name]), {AuthReq(n.id, peer, name)}, {AwaitAuth(n.id, peer)})
    case AutoAccept(at, peer, name) =>
      Adding(n, peer, name, GenAlias(name, "", AliasesOf(n.known)), true, NoIP)
    case Block(at, peer) =>
      Effect(BlockPeer(n, peer), {}, {Exchange(n.id, peer, ZERO_PEER)})
    case Reread(at, peer) =>
      Effect(n, {}, {Exchange(n.id, peer, GetPeer(n.known, peer))})
    case Exchange(at, peer, record) =>
      Effect(n.(ingoing := n.ingoing - {peer}), {}, {ExchangeSend(n.id, peer, record)})
    case ExchangeSend(at, peer, record) =>
      Effect(n, {StatusReq(n.id, peer, CreatePeerInfo(n, record, peer in n.blocked))},
             {AwaitStatus(n.id, peer, peer in n.blocked)})
    case Process(at, peer, info) =>
      Quiet(ProcessStatus(n, peer, info))
  }

  ghost function EffectOf(n: Node, s: Step): Effect
    requires Applies(n, s)
  {
    match s
    case Invite(at, peer, alias, ip) => Adding(n, peer, "", alias, false, ip)
    case Accept(at, peer, alias, ip) => Adding(n, peer, n.ingoing[peer], alias, true, ip)
    case Decline(at, peer) => Effect(BlockPeer(n, peer), {}, {Exchange(n.id, peer, ZERO_PEER)})
    case Remove(at, peer) => Effect(RemovePeer(n, peer), {}, {Block(n.id, peer)})
    case Update(at, peer, alias, domain, allow, ip) =>
      var m := UpdatePeerSettings(n, peer, alias, domain, allow, ip);
      if UpdateAllowed(n, peer, alias, ip)
      then Effect(m, {}, {Exchange(n.id, peer, GetPeer(m.known, peer))})
      else Quiet(n)
    case Choose(at, peer) => Quiet(ChooseProxy(n, peer))
    case Configure(at, name, autoAccept) => Quiet(n.(name := name, autoAccept := autoAccept))
    case Refresh(at, peer) => Effect(n, {}, {Exchange(n.id, peer, n.known[peer])})
    case Retry(at, peer) => Effect(n, {}, {SendAuth(n.id, peer, n.outgoing[peer])})
    case Restarted(at) => Quiet(Restart(n))
    case Run(at, task) => RunTask(n, task)
    case OpenStatus(at, peer) =>
      Effect(n, {}, {Serve(n.id, peer, GetPeer(n.known, peer), peer in n.blocked)})
    case GetAuth(at, msg) =>
      var (m, response) := AuthReceived(n, msg.src, msg.name);
      Effect(m, {AuthResp(n.id, msg.src, response)},
             if AutoAccepts(n, msg.src) then {AutoAccept(n.id, msg.src, msg.name)} else {})
    case GetAuthResp(at, task, msg) => Quiet(AuthAnswered(n, msg.src, msg.response))
    case GetStatus(at, task, msg) =>
      Effect(n.(outgoing := n.outgoing - {msg.src}),
             {StatusResp(n.id, msg.src, CreatePeerInfo(n, task.record, task.blocked))},
             if task.blocked then {} else {Process(n.id, msg.src, msg.info)})
    case GetStatusResp(at, task, msg) =>
      if task.blocked then Quiet(n) else Quiet(ProcessStatus(n, msg.src, msg.info))
  }

  /** One step; anything sent, pending or just spawned may be lost along the way. */
  ghost predicate NextBy(w: World, w': World, s: Step) {
    && Enabled(w, s)
    && var e := EffectOf(w.nodes[s.at], s);
       w'.nodes == w.nodes[s.at := e.node] && w'.msgs <= w.msgs + e.sent && w'.tasks <= w.tasks + e.spawned
  }

  ghost predicate Next(w: World, w': World) {
    exists s :: NextBy(w, w', s)
  }

  /** Nodes start with empty configurations. */
  ghost predicate Init(w: World) {
    && w.msgs == {} && w.tasks == {} && "" !in w.nodes
    && forall id :: id in w.nodes ==>
         var n := w.nodes[id];
         n.id == id && n.known == map[] && n.blocked == {} && n.ingoing == map[] && n.outgoing == map[] && n.using == ""
  }

  ghost predicate IsRun(run: seq<World>) {
    && run != [] && Init(run[0])
    && forall i :: 0 <= i < |run| - 1 ==> Next(run[i], run[i + 1])
  }
}
