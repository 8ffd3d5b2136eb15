/** The Redis Cluster election protocol: epochs, votes and failover wins.

    Every node runs the handlers below; `Step` composes them with a network that
    may reorder and lose packets but never repeats one (a cluster bus link is a TCP stream).
    Restarts, CLUSTER RESET and CLUSTER FAILOVER TAKEOVER are not steps of this model. */
module ClusterElection {
  import opened Base

  /** What a node believes about another node (or itself). */
  datatype Peer = Peer(configEpoch: nat, isMaster: bool, slaveof: Option<NodeId>, failed: bool, votedTime: int)

  datatype Node = Node(
    currentEpoch: nat,
    lastVoteEpoch: nat,
    authEpoch: nat,     // failover_auth_epoch
    authCount: nat,     // failover_auth_count
    authSent: bool,     // failover_auth_sent
    peers: map<NodeId, Peer>,
    slots: map<nat, NodeId>)

  datatype Body =
    | Ping(senderIsMaster: bool)
    | AuthRequest(claimed: set<nat>, forceAck: bool)
    | AuthAck
    | Update(about: NodeId, epoch: nat)

  datatype Msg = Msg(src: NodeId, dst: NodeId, currentEpoch: nat, configEpoch: nat, body: Body)

  // ---------------------------------------------------------------- handlers

  /** The masters that serve slots, as this node sees them: who may vote, and server.cluster->size. A master flagged
      as failing is one of them for as long as it owns slots. */
  function Serving(n: Node): set<NodeId> {
    set id | id in n.peers && n.peers[id].isMaster && id in n.slots.Values
  }

  /** The epoch part of clusterProcessPacket, run for every packet of a known sender. */
  function ProcessHeader(n: Node, m: Msg): Node {
    if m.src !in n.peers then n
    else
      var p := n.peers[m.src];
      n.(currentEpoch := Max(n.currentEpoch, m.currentEpoch),
         peers := n.peers[m.src := p.(configEpoch := Max(p.configEpoch, m.configEpoch))])
  }

  /** The header every outgoing packet carries: a slave advertises its master's config epoch. */
  function HeaderConfigEpoch(me: NodeId, n: Node): nat
    requires me in n.peers
  {
    var self := n.peers[me];
    if !self.isMaster && self.slaveof.Some? && self.slaveof.value in n.peers
    then n.peers[self.slaveof.value].configEpoch
    else self.configEpoch
  }

  function Packet(me: NodeId, n: Node, dst: NodeId, body: Body): Msg
    requires me in n.peers
  {
    Msg(me, dst, n.currentEpoch, HeaderConfigEpoch(me, n), body)
  }

  /** No slot the candidate claims is known to be served under a newer config epoch. */
  predicate ClaimIsCurrent(n: Node, claimed: set<nat>, requestConfigEpoch: nat) {
    forall j :: j in claimed && j in n.slots && n.slots[j] in n.peers
                ==> n.peers[n.slots[j]].configEpoch <= requestConfigEpoch
  }

  /** The decision of clusterSendFailoverAuthIfNeeded, after the header has been processed. */
  predicate GrantsVote(me: NodeId, n: Node, m: Msg, now: int, nodeTimeout: int)
    requires m.body.AuthRequest?
  {
    && me in Serving(n)
    && n.currentEpoch <= m.currentEpoch
    && n.lastVoteEpoch != n.currentEpoch
    && m.src in n.peers
    && var p := n.peers[m.src];
    && !p.isMaster
    && p.slaveof.Some? && p.slaveof.value in n.peers
    && var master := n.peers[p.slaveof.value];
    && (master.failed || m.body.forceAck)
    && now - master.votedTime >= nodeTimeout * 2
    && ClaimIsCurrent(n, m.body.claimed, m.configEpoch)
  }

  function RecordVote(n: Node, master: NodeId, now: int): Node
    requires master in n.peers
  {
    n.(lastVoteEpoch := n.currentEpoch, peers := n.peers[master := n.peers[master].(votedTime := now)])
  }

  /** clusterHandleConfigEpochCollision, guarded as in clusterProcessPacket. */
  function ResolveCollision(me: NodeId, n: Node, m: Msg): Node {
    if && me in n.peers && m.src in n.peers
       && n.peers[me].isMaster && n.peers[m.src].isMaster
       && m.configEpoch == n.peers[me].configEpoch
       && n.peers[m.src].configEpoch == n.peers[me].configEpoch
       && me < m.src
    then TakeNextEpoch(me, n)
    else n
  }

  function TakeNextEpoch(me: NodeId, n: Node): Node
    requires me in n.peers
  {
    var e := n.currentEpoch + 1;
    n.(currentEpoch := e, peers := n.peers[me := n.peers[me].(configEpoch := e)])
  }

  /** clusterSetNodeAsMaster. */
  function AsMaster(p: Peer): Peer {
    if p.isMaster then p else p.(isMaster := true, slaveof := None)
  }

  /** The UPDATE branch of clusterProcessPacket, without the slot rebinding. */
  function LearnEpoch(n: Node, m: Msg): Node
    requires m.body.Update?
  {
    if m.src in n.peers && m.body.about in n.peers && n.peers[m.body.about].configEpoch < m.body.epoch
    then n.(peers := n.peers[m.body.about := AsMaster(n.peers[m.body.about]).(configEpoch := m.body.epoch)])
    else n
  }

  /** The AUTH_ACK branch of clusterProcessPacket: is this vote counted? */
  predicate CountsAck(n: Node, m: Msg) {
    m.src in Serving(n) && m.currentEpoch >= n.authEpoch
  }

  /** What clusterHandleSlaveFailover demands before anything else: a slave whose master serves slots and is flagged
      as failing, unless the failover is a manual one. */
  predicate MayFailOver(me: NodeId, n: Node, manual: bool) {
    && me in n.peers && !n.peers[me].isMaster
    && n.peers[me].slaveof.Some? && n.peers[me].slaveof.value in n.peers
    && (n.peers[n.peers[me].slaveof.value].failed || manual)
    && n.peers[me].slaveof.value in n.slots.Values
  }

  /** The slots a packet of this node claims: its own, or its master's. */
  function ClaimedSlots(me: NodeId, n: Node): set<nat>
    requires me in n.peers
  {
    var self := n.peers[me];
    var of := if !self.isMaster && self.slaveof.Some? then self.slaveof.value else me;
    set j | j in n.slots && n.slots[j] == of
  }

  /** A packet claims slots under the config epoch of the node that owns them: a slave speaks for its master. */
  lemma ClaimsUnderOwnersEpoch(me: NodeId, n: Node, j: nat)
    requires me in n.peers && j in ClaimedSlots(me, n) && n.slots[j] in n.peers
    ensures n.peers[n.slots[j]].configEpoch == HeaderConfigEpoch(me, n)
    ensures n.slots[j] == me || (!n.peers[me].isMaster && n.peers[me].slaveof == Some(n.slots[j]))
  {
  }

  function StartElection(n: Node): Node {
    n.(currentEpoch := n.currentEpoch + 1, authEpoch := n.currentEpoch + 1, authSent := true)
  }

  function ScheduleElection(n: Node): Node {
    n.(authCount := 0, authSent := false)
  }

  /** The end of clusterHandleSlaveFailover: the epoch, the role and the old master's slots. */
  function TakeElectionEpoch(me: NodeId, n: Node): Node
    requires me in n.peers
  {
    var claimed := ClaimedSlots(me, n);
    n.(peers := n.peers[me := n.peers[me].(configEpoch := Max(n.peers[me].configEpoch, n.authEpoch),
                                           isMaster := true, slaveof := None)],
       slots := map j | j in n.slots :: if j in claimed then me else n.slots[j])
  }

  /** clusterBumpConfigEpochWithoutConsensus. */
  function Bump(me: NodeId, n: Node): Node
    requires me in n.peers
  {
    if n.peers[me].configEpoch == 0 || (exists id :: id in n.peers && n.peers[id].configEpoch > n.peers[me].configEpoch)
       || n.peers[me].configEpoch < n.currentEpoch
    then TakeNextEpoch(me, n)
    else n
  }

  // ---------------------------------------------------------------- the cluster

  datatype Vote = Vote(voter: NodeId, epoch: nat, candidate: NodeId, seen: set<nat>)

  /** A win: the epoch, the winner, the votes counted for that epoch, how many counted acknowledgements belonged to
      an election abandoned before it, and the number of slot-serving masters the winner knew. */
  datatype Win = Win(epoch: nat, candidate: NodeId, tally: set<NodeId>, stale: nat, size: nat)

  /** Bookkeeping that no handler reads. */
  datatype History = History(votes: set<Vote>, wins: set<Win>, tally: map<NodeId, set<NodeId>>, stale: map<NodeId, nat>)

  datatype State = State(nodes: map<NodeId, Node>, net: multiset<Msg>, hist: History)

  /** What a node does on its own: periodic duties, administrator commands, view changes. */
  datatype Action =
    | Heartbeat(dst: NodeId)
    | SendUpdate(dst: NodeId, about: NodeId)
    | Meet(id: NodeId)
    | Forget(id: NodeId)
    | Reflag(id: NodeId, isMaster: bool, slaveof: Option<NodeId>, failed: bool)
    | Rebind(slots: map<nat, NodeId>)
    | BumpEpoch
    | SetConfigEpoch(epoch: nat)
    | Schedule(manual: bool)
    | RequestVotes(manual: bool, force: bool)
    | WinElection(manual: bool)

  datatype Event =
    | Deliver(m: Msg, now: int)
    | Lose(m: Msg)
    | Local(at: NodeId, action: Action)

  /** The new state of the acting node, the packets it sends, and the history. */
  datatype Effect = Effect(node: Node, sent: multiset<Msg>, hist: History)

  predicate CanAct(me: NodeId, n: Node, a: Action) {
    && me in n.peers
    && match a
       case SendUpdate(_, about) => about in n.peers
       case Meet(id) => id !in n.peers
       case Forget(id) => id != me
       case Reflag(id, _, _, _) => id in n.peers
       case SetConfigEpoch(_) => n.peers.Keys == {me} && n.peers[me].configEpoch == 0
       case Schedule(manual) => MayFailOver(me, n, manual)
       case RequestVotes(manual, _) => MayFailOver(me, n, manual) && !n.authSent
       case WinElection(manual) => MayFailOver(me, n, manual) && n.authSent && n.authCount >= |Serving(n)| / 2 + 1
       case _ => true
  }

  function ViewChange(me: NodeId, n: Node, a: Action): Node
    requires me in n.peers && (a.Reflag? ==> a.id in n.peers)
  {
    match a
    case Meet(id) => n.(peers := n.peers[id := Peer(0, true, None, false, 0)])
    case Forget(id) => n.(peers := n.peers - {id})
    case Reflag(id, master, slaveof, failed) =>
      n.(peers := n.peers[id := n.peers[id].(isMaster := master, slaveof := slaveof, failed := failed)])
    case Rebind(slots) => n.(slots := slots)
    case BumpEpoch => Bump(me, n)
    case SetConfigEpoch(epoch) =>
      n.(currentEpoch := Max(n.currentEpoch, epoch), peers := n.peers[me := n.peers[me].(configEpoch := epoch)])
    case _ => n
  }

  /** clusterRequestFailoverAuth; `force` asks for a vote although the master may be working. */
  function Requests(me: NodeId, n: Node, force: bool): multiset<Msg>
    requires me in n.peers
  {
    multiset(set d | d in n.peers && d != me :: Packet(me, n, d, AuthRequest(ClaimedSlots(me, n), force)))
  }

  function Act(me: NodeId, n: Node, h: History, a: Action): Effect
    requires CanAct(me, n, a)
  {
    match a
    case Heartbeat(dst) => Effect(n, multiset{Packet(me, n, dst, Ping(n.peers[me].isMaster))}, h)
    case SendUpdate(dst, about) =>
      Effect(n, multiset{Packet(me, n, dst, Update(about, n.peers[about].configEpoch))}, h)
    case Schedule(_) =>
      Effect(ScheduleElection(n), multiset{}, h.(tally := h.tally[me := {}], stale := h.stale[me := 0]))
    case RequestVotes(_, force) => Effect(StartElection(n), Requests(me, StartElection(n), force), h)
    case WinElection(_) =>
      Effect(TakeElectionEpoch(me, n), multiset{},
             h.(wins := h.wins + {Win(n.authEpoch, me, Tally(h, me), Stale(h, me), |Serving(n)|)}))
    case _ => Effect(ViewChange(me, n, a), multiset{}, h)
  }

  function Tally(h: History, c: NodeId): set<NodeId> {
    if c in h.tally then h.tally[c] else {}
  }

  function Stale(h: History, c: NodeId): nat {
    if c in h.stale then h.stale[c] else 0
  }

  function CountInHistory(h: History, c: NodeId, voter: NodeId, sent: bool): History {
    if sent then h.(tally := h.tally[c := Tally(h, c) + {voter}])
    else h.(stale := h.stale[c := Stale(h, c) + 1])
  }

  function KnownEpochs(n: Node): set<nat> {
    set id | id in n.peers :: n.peers[id].configEpoch
  }

  /** `n` has already processed the header of `m`. */
  function OnRequest(nodeTimeout: int, me: NodeId, n: Node, h: History, m: Msg, now: int): Effect
    requires m.body.AuthRequest?
  {
    if me in n.peers && GrantsVote(me, n, m, now, nodeTimeout) then
      Effect(RecordVote(n, n.peers[m.src].slaveof.value, now),
             multiset{Packet(me, n, m.src, AuthAck)},
             h.(votes := h.votes + {Vote(me, n.currentEpoch, m.src, KnownEpochs(n))}))
    else Effect(n, multiset{}, h)
  }

  function OnAck(me: NodeId, n: Node, h: History, m: Msg): Effect {
    if CountsAck(n, m)
    then Effect(n.(authCount := n.authCount + 1), multiset{}, CountInHistory(h, me, m.src, n.authSent))
    else Effect(n, multiset{}, h)
  }

  function OnPing(me: NodeId, n: Node, m: Msg): Node
    requires m.body.Ping?
  {
    var n1 := if m.src in n.peers
              then n.(peers := n.peers[m.src := if m.body.senderIsMaster then AsMaster(n.peers[m.src])
                                                else n.peers[m.src].(isMaster := false)])
              else n;
    ResolveCollision(me, n1, m)
  }

  /** clusterProcessPacket. */
  function Process(nodeTimeout: int, me: NodeId, n0: Node, h: History, m: Msg, now: int): Effect {
    var n := ProcessHeader(n0, m);
    match m.body
    case Ping(_) => Effect(OnPing(me, n, m), multiset{}, h)
    case Update(_, _) => Effect(LearnEpoch(n, m), multiset{}, h)
    case AuthRequest(_, _) => OnRequest(nodeTimeout, me, n, h, m, now)
    case AuthAck => OnAck(me, n, h, m)
  }

  predicate Enabled(s: State, e: Event) {
    match e
    case Deliver(m, _) => m in s.net && m.dst in s.nodes
    case Lose(m) => m in s.net
    case Local(at, a) => at in s.nodes && CanAct(at, s.nodes[at], a)
  }

  function Apply(s: State, consumed: multiset<Msg>, at: NodeId, e: Effect): State {
    State(s.nodes[at := e.node], s.net - consumed + e.sent, e.hist)
  }

  function Step(nodeTimeout: int, s: State, e: Event): State
    requires Enabled(s, e)
  {
    match e
    case Deliver(m, now) =>
      Apply(s, multiset{m}, m.dst, Process(nodeTimeout, m.dst, s.nodes[m.dst], s.hist, m, now))
    case Lose(m) => s.(net := s.net - multiset{m})
    case Local(at, a) => Apply(s, multiset{}, at, Act(at, s.nodes[at], s.hist, a))
  }

  /** Any number of fresh nodes that may already know each other's names; failover_auth_sent is
      not initialised by the source, so it starts arbitrary. */
  predicate Init(s: State) {
    && s.net == multiset{}
    && s.hist == History({}, {}, map[], map[])
    && forall id :: id in s.nodes ==> FreshNode(s.nodes[id])
  }

  predicate FreshNode(n: Node) {
    && n.currentEpoch == 0 && n.lastVoteEpoch == 0 && n.authEpoch == 0 && n.authCount == 0
    && forall p :: p in n.peers ==> n.peers[p].configEpoch == 0
  }

  /** `s` is what the run of events `run` leads to from `s0`. */
  predicate Runs(nodeTimeout: int, s0: State, run: seq<Event>, s: State)
    decreases |run|
  {
    if run == [] then s == s0
    else Enabled(s0, run[0]) && Runs(nodeTimeout, Step(nodeTimeout, s0, run[0]), run[1..], s)
  }
}
