/** Config epoch collisions among masters: in a run where only clusterHandleConfigEpochCollision changes
    config epochs, how often can a master change its epoch, and where does the run come to rest? */
module ClusterCollision {
  import opened Base
  import opened ClusterElection

  /** `held`: the config epochs each master has had; `moves`: how often it changed its epoch. */
  datatype Masters = Masters(nodes: map<NodeId, Node>, net: multiset<Msg>, held: map<NodeId, set<nat>>, moves: map<NodeId, nat>)

  datatype Event = Beat(at: NodeId, dst: NodeId) | Receive(m: Msg) | Drop(m: Msg)

  function Config(s: Masters, id: NodeId): nat
    requires id in s.nodes && id in s.nodes[id].peers
  {
    s.nodes[id].peers[id].configEpoch
  }

  /** clusterProcessPacket on a heartbeat. */
  function Heard(me: NodeId, n: Node, m: Msg): Node
    requires m.body.Ping?
  {
    OnPing(me, ProcessHeader(n, m), m)
  }

  predicate Enabled(s: Masters, e: Event) {
    match e
    case Beat(at, dst) => at in s.nodes && at in s.nodes[at].peers && dst != at
    case Receive(m) => m in s.net && m.body.Ping? && m.dst in s.nodes && m.dst in s.held && m.dst in s.moves
                       && m.dst in Heard(m.dst, s.nodes[m.dst], m).peers && m.dst in s.nodes[m.dst].peers
    case Drop(m) => m in s.net
  }

  function Moved(s: Masters, me: NodeId, n: Node): Masters
    requires me in s.nodes && me in s.nodes[me].peers && me in n.peers && me in s.held && me in s.moves
  {
    var epoch := n.peers[me].configEpoch;
    s.(nodes := s.nodes[me := n], held := s.held[me := s.held[me] + {epoch}],
       moves := if epoch == Config(s, me) then s.moves else s.moves[me := s.moves[me] + 1])
  }

  function Step(s: Masters, e: Event): Masters
    requires Enabled(s, e)
  {
    match e
    case Beat(at, dst) => s.(net := s.net + multiset{Packet(at, s.nodes[at], dst, Ping(s.nodes[at].peers[at].isMaster))})
    case Receive(m) => Moved(s, m.dst, Heard(m.dst, s.nodes[m.dst], m)).(net := s.net - multiset{m})
    case Drop(m) => s.(net := s.net - multiset{m})
  }

  predicate Runs(s0: Masters, run: seq<Event>, s: Masters)
    decreases |run|
  {
    if run == [] then s == s0
    else Enabled(s0, run[0]) && Runs(Step(s0, run[0]), run[1..], s)
  }

  /** Masters with any epochs their currentEpoch covers; what one knows of another may be out of date. */
  predicate Init(s: Masters) {
    && s.net == multiset{} && s.held.Keys == s.nodes.Keys && s.moves.Keys == s.nodes.Keys
    && (forall id {:trigger FreshMaster(s, id)} :: id in s.nodes ==> FreshMaster(s, id))
  }

  predicate FreshMaster(s: Masters, id: NodeId)
    requires id in s.nodes
  {
    && id in s.nodes[id].peers && s.nodes[id].peers[id].isMaster
    && id in s.held && s.held[id] == {Config(s, id)} && id in s.moves && s.moves[id] == 0
    && (forall p :: p in s.nodes[id].peers ==> s.nodes[id].peers[p].configEpoch <= s.nodes[id].currentEpoch)
    && (forall p :: p in s.nodes[id].peers && p in s.nodes && p in s.nodes[p].peers
                    ==> s.nodes[id].peers[p].configEpoch <= Config(s, p))
  }

  // ---------------------------------------------------------------- the invariant

  /** One master: it is dominated, and each epoch it gave up was also held by a master of greater name. */
  ghost predicate MasterOk(s: Masters, id: NodeId)
    requires id in s.nodes
  {
    && var n := s.nodes[id];
    && id in n.peers && n.peers[id].isMaster && id in s.held && id in s.moves
    && (forall p :: p in n.peers ==> n.peers[p].configEpoch <= n.currentEpoch)
    && Config(s, id) in s.held[id] && (forall e :: e in s.held[id] ==> e <= Config(s, id))
    && (forall e :: e in s.held[id] && e != Config(s, id) ==> HeldAbove(s, id, e))
    && s.moves[id] + 1 == |s.held[id]|
  }

  ghost predicate HeldAbove(s: Masters, id: NodeId, e: nat) {
    exists k :: k in s.nodes && k > id && k in s.held && e in s.held[k]
  }

  ghost predicate BeatOk(s: Masters, m: Msg) {
    && m.body.Ping? && m.body.senderIsMaster && m.src in s.nodes && m.src in s.held && m.dst != m.src
    && m.configEpoch in s.held[m.src] && m.configEpoch <= m.currentEpoch
  }

  /** What a node knows of another is never ahead of it. */
  ghost predicate NotAhead(s: Masters, id: NodeId, p: NodeId)
    requires id in s.nodes
  {
    p in s.nodes[id].peers && p in s.nodes && p in s.nodes[p].peers ==> s.nodes[id].peers[p].configEpoch <= Config(s, p)
  }

  ghost predicate Ok(s: Masters) {
    && s.held.Keys == s.nodes.Keys
    && (forall id {:trigger MasterOk(s, id)} :: id in s.nodes ==> MasterOk(s, id))
    && (forall m {:trigger BeatOk(s, m)} :: m in s.net ==> BeatOk(s, m))
    && (forall id, p {:trigger NotAhead(s, id, p)} :: id in s.nodes ==> NotAhead(s, id, p))
  }

  /** The heart of the rule: a heartbeat leaves the receiver's own epoch alone, unless it comes from a
      greater name holding the same epoch; then the receiver moves past everything it knows. */
  ghost predicate HeardOk(me: NodeId, n: Node, m: Msg, n': Node) {
    && me in n.peers && me in n'.peers && n'.peers[me].isMaster
    && (forall p :: p in n'.peers ==> n'.peers[p].configEpoch <= n'.currentEpoch)
    && n.peers[me].configEpoch <= n'.peers[me].configEpoch
    && (n'.peers[me].configEpoch != n.peers[me].configEpoch ==> me < m.src && m.configEpoch == n.peers[me].configEpoch)
    && (forall p :: p in n'.peers && p != me ==>
          p in n.peers && (n'.peers[p].configEpoch == n.peers[p].configEpoch
                           || (p == m.src && n'.peers[p].configEpoch == m.configEpoch)))
  }

  lemma HeardRule(me: NodeId, n: Node, m: Msg)
    requires me in n.peers && n.peers[me].isMaster && m.body.Ping? && m.body.senderIsMaster && m.src != me
    requires forall p :: p in n.peers ==> n.peers[p].configEpoch <= n.currentEpoch
    requires m.configEpoch <= m.currentEpoch
    ensures HeardOk(me, n, m, Heard(me, n, m))
  {
  }

  ghost predicate Moves(s: Masters, m: Msg, n': Node, t: Masters) {
    && Ok(s) && m in s.net && BeatOk(s, m) && m.dst in s.nodes && MasterOk(s, m.dst)
    && HeardOk(m.dst, s.nodes[m.dst], m, n')
    && t == Moved(s, m.dst, n').(net := s.net - multiset{m})
  }

  lemma MoveKeepsHeldAbove(s: Masters, m: Msg, n': Node, t: Masters, id: NodeId, e: nat)
    requires Moves(s, m, n', t) && HeldAbove(s, id, e)
    ensures HeldAbove(t, id, e)
  {
    var k :| k in s.nodes && k > id && k in s.held && e in s.held[k];
    assert k in t.nodes && k in t.held && e in t.held[k];
  }

  lemma MoveKeepsReceiver(s: Masters, m: Msg, n': Node, t: Masters)
    requires Moves(s, m, n', t)
    ensures MasterOk(t, m.dst)
  {
    var me := m.dst;
    if Config(t, me) == Config(s, me) {
      assert t.held[me] == s.held[me];
    } else {
      assert Config(t, me) !in s.held[me];
    }
    forall e | e in t.held[me] && e != Config(t, me)
      ensures HeldAbove(t, me, e)
    {
      if e == Config(s, me) {
        assert m.src in t.nodes && m.src in t.held && e in t.held[m.src];
      } else {
        assert HeldAbove(s, me, e);
        MoveKeepsHeldAbove(s, m, n', t, me, e);
      }
    }
  }

  lemma MoveKeepsOther(s: Masters, m: Msg, n': Node, t: Masters, id: NodeId)
    requires Moves(s, m, n', t) && id in s.nodes && id != m.dst
    ensures MasterOk(t, id)
  {
    assert MasterOk(s, id);
    forall e | e in t.held[id] && e != Config(t, id)
      ensures HeldAbove(t, id, e)
    {
      MoveKeepsHeldAbove(s, m, n', t, id, e);
    }
  }

  lemma MoveKeepsNotAhead(s: Masters, m: Msg, n': Node, t: Masters, id: NodeId, p: NodeId)
    requires Moves(s, m, n', t) && id in s.nodes
    ensures NotAhead(t, id, p)
  {
    assert NotAhead(s, id, p);
    if p in s.nodes {
      assert MasterOk(s, p);
    }
  }

  lemma MoveKeepsOk(s: Masters, m: Msg, n': Node, t: Masters)
    requires Moves(s, m, n', t)
    ensures Ok(t)
  {
    forall id | id in t.nodes
      ensures MasterOk(t, id)
    {
      if id == m.dst {
        MoveKeepsReceiver(s, m, n', t);
      } else {
        MoveKeepsOther(s, m, n', t, id);
      }
    }
    forall k | k in t.net
      ensures BeatOk(t, k)
    {
      assert BeatOk(s, k);
    }
    forall id, p | id in t.nodes
      ensures NotAhead(t, id, p)
    {
      MoveKeepsNotAhead(s, m, n', t, id, p);
    }
  }

  lemma NetKeepsOk(s: Masters, t: Masters)
    requires Ok(s) && t == s.(net := t.net) && forall m :: m in t.net ==> BeatOk(s, m)
    ensures Ok(t)
  {
    forall id | id in t.nodes
      ensures MasterOk(t, id)
    {
      assert MasterOk(s, id);
      forall e | e in t.held[id] && e != Config(t, id)
        ensures HeldAbove(t, id, e)
      {
        assert HeldAbove(s, id, e);
      }
    }
    forall m | m in t.net
      ensures BeatOk(t, m)
    {
      assert BeatOk(s, m);
    }
    forall id, p | id in t.nodes
      ensures NotAhead(t, id, p)
    {
      assert NotAhead(s, id, p);
    }
  }

  lemma StepKeepsOk(s: Masters, e: Event)
    requires Ok(s) && Enabled(s, e)
    ensures Ok(Step(s, e))
  {
    var t := Step(s, e);
    match e
    case Receive(m) =>
      assert MasterOk(s, m.dst) && BeatOk(s, m);
      HeardRule(m.dst, s.nodes[m.dst], m);
      MoveKeepsOk(s, m, Heard(m.dst, s.nodes[m.dst], m), t);
    case Beat(at, dst) =>
      assert MasterOk(s, at);
      NetKeepsOk(s, t);
    case Drop(m) => NetKeepsOk(s, t);
  }

  lemma InitOk(s: Masters)
    requires Init(s)
    ensures Ok(s)
  {
    forall id | id in s.nodes
      ensures MasterOk(s, id)
    {
      assert FreshMaster(s, id);
    }
    forall id, p | id in s.nodes
      ensures NotAhead(s, id, p)
    {
      assert FreshMaster(s, id);
    }
  }

  lemma {:induction false} RunKeepsOk(s0: Masters, run: seq<Event>, s: Masters)
    requires Ok(s0) && Runs(s0, run, s)
    ensures Ok(s)
    decreases |run|
  {
    if run != [] {
      StepKeepsOk(s0, run[0]);
      RunKeepsOk(Step(s0, run[0]), run[1..], s);
    }
  }

  // ---------------------------------------------------------------- how often a master can move

  /** The masters whose names are greater than `id`'s. */
  function Above(s: Masters, id: NodeId): set<NodeId> {
    set k | k in s.nodes && k > id
  }

  /** The epochs ever held by the masters above `id`. */
  ghost function HeldByAbove(s: Masters, id: NodeId): set<nat>
    requires s.held.Keys == s.nodes.Keys
  {
    set k, e | k in Above(s, id) && e in s.held[k] :: e
  }

  function Pow2(n: nat): nat {
    if n == 0 then 1 else 2 * Pow2(n - 1)
  }

  /** The next greater name, if any. */
  lemma {:induction false} LeastOf(a: set<NodeId>) returns (least: NodeId)
    requires a != {}
    ensures least in a && forall k :: k in a ==> least <= k
    decreases |a|
  {
    var x :| x in a;
    if a == {x} {
      return x;
    }
    var y := LeastOf(a - {x});
    assert forall k :: k in a ==> k == x || k in a - {x};
    least := if x < y then x else y;
  }

  /** A master gives up only epochs that some greater name holds. */
  lemma HeldBound(s: Masters, id: NodeId)
    requires Ok(s) && id in s.nodes
    ensures |s.held[id]| <= |HeldByAbove(s, id)| + 1
  {
    assert MasterOk(s, id);
    var givenUp := s.held[id] - {Config(s, id)};
    forall e | e in givenUp
      ensures e in HeldByAbove(s, id)
    {
      assert HeldAbove(s, id, e);
    }
    SubsetSize(givenUp, HeldByAbove(s, id));
  }

  lemma AboveSplit(s: Masters, id: NodeId, next: NodeId)
    requires s.held.Keys == s.nodes.Keys
    requires next in Above(s, id) && forall k :: k in Above(s, id) ==> next <= k
    ensures Above(s, id) == {next} + Above(s, next) && |Above(s, id)| == 1 + |Above(s, next)|
    ensures HeldByAbove(s, id) == s.held[next] + HeldByAbove(s, next)
  {
    assert Above(s, id) == {next} + Above(s, next);
  }

  /** Together the masters above `id` hold at most 2^r - 1 epochs, r being their number. */
  lemma {:induction false} AboveBound(s: Masters, id: NodeId)
    requires Ok(s)
    ensures |HeldByAbove(s, id)| + 1 <= Pow2(|Above(s, id)|)
    decreases |Above(s, id)|
  {
    var above := Above(s, id);
    if above == {} {
      assert HeldByAbove(s, id) == {};
    } else {
      var next := LeastOf(above);
      AboveSplit(s, id, next);
      AboveBound(s, next);
      HeldBound(s, next);
      UnionSize(s.held[next], HeldByAbove(s, next));
    }
  }

  lemma UnionSize(a: set<nat>, b: set<nat>)
    ensures |a + b| <= |a| + |b|
  {
    assert |a + b| + |a * b| == |a| + |b|;
  }

  /** In every run, a master with r masters of greater name changes its config epoch at most 2^r - 1
      times; the one with the greatest name never does. */
  lemma CollisionsAreBounded(s0: Masters, run: seq<Event>, s: Masters, id: NodeId)
    requires Init(s0) && Runs(s0, run, s) && id in s.nodes
    ensures id in s.moves && s.moves[id] <= Pow2(|Above(s, id)|) - 1
    ensures Above(s, id) == {} ==> s.moves[id] == 0
  {
    InitOk(s0);
    RunKeepsOk(s0, run, s);
    assert MasterOk(s, id);
    HeldBound(s, id);
    AboveBound(s, id);
  }

  // ---------------------------------------------------------------- where runs come to rest

  /** A heartbeat sent now by `from` would not change the config epoch of `to`. */
  predicate Undisturbed(s: Masters, from: NodeId, to: NodeId)
    requires from in s.nodes && to in s.nodes && from in s.nodes[from].peers && to in s.nodes[to].peers
  {
    var m := Packet(from, s.nodes[from], to, Ping(s.nodes[from].peers[from].isMaster));
    var n := Heard(to, s.nodes[to], m);
    to in n.peers && n.peers[to].configEpoch == Config(s, to)
  }

  lemma DisturbedExactlyByCollision(s: Masters, from: NodeId, to: NodeId)
    requires Ok(s) && from in s.nodes && to in s.nodes && from != to && from in s.nodes[to].peers
    requires from in s.nodes[from].peers && to in s.nodes[to].peers
    ensures Undisturbed(s, from, to) <==> !(to < from && Config(s, from) == Config(s, to))
  {
    assert MasterOk(s, from) && MasterOk(s, to) && NotAhead(s, to, from);
    var m := Packet(from, s.nodes[from], to, Ping(s.nodes[from].peers[from].isMaster));
    HeardRule(to, s.nodes[to], m);
    var n := ProcessHeader(s.nodes[to], m);
    assert n.peers[from].configEpoch == Config(s, from);
  }

  ghost predicate Mesh(s: Masters) {
    forall i, j :: i in s.nodes && j in s.nodes ==> j in s.nodes[i].peers
  }

  ghost predicate AtRest(s: Masters)
    requires Mesh(s)
  {
    forall i, j :: i in s.nodes && j in s.nodes && i != j ==> Undisturbed(s, i, j)
  }

  ghost predicate DistinctEpochs(s: Masters)
    requires Mesh(s)
  {
    forall i, j :: i in s.nodes && j in s.nodes && i != j ==> Config(s, i) != Config(s, j)
  }

  lemma RestIsDistinct(s: Masters)
    requires Ok(s) && Mesh(s) && AtRest(s)
    ensures DistinctEpochs(s)
  {
    forall i, j | i in s.nodes && j in s.nodes && i != j
      ensures Config(s, i) != Config(s, j)
    {
      assert Undisturbed(s, i, j) && Undisturbed(s, j, i);
      DisturbedExactlyByCollision(s, i, j);
      DisturbedExactlyByCollision(s, j, i);
    }
  }

  /** A reachable state is at rest under fresh heartbeats exactly when all config epochs differ. */
  lemma RestIsDistinctness(s0: Masters, run: seq<Event>, s: Masters)
    requires Init(s0) && Runs(s0, run, s) && Mesh(s)
    ensures AtRest(s) <==> DistinctEpochs(s)
  {
    InitOk(s0);
    RunKeepsOk(s0, run, s);
    if AtRest(s) {
      RestIsDistinct(s);
    }
    if DistinctEpochs(s) {
      forall i, j | i in s.nodes && j in s.nodes && i != j
        ensures Undisturbed(s, i, j)
      {
        DisturbedExactlyByCollision(s, i, j);
      }
    }
  }
}
