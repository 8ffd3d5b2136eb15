/** Epoch dominance and election safety, over every run of the cluster. */
module ElectionSafety {
  import opened Base
  import opened ClusterElection

  // ---------------------------------------------------------------- epoch dominance

  ghost predicate NodeDominated(n: Node) {
    && n.authEpoch <= n.currentEpoch
    && n.lastVoteEpoch <= n.currentEpoch
    && forall id :: id in n.peers ==> n.peers[id].configEpoch <= n.currentEpoch
  }

  ghost predicate MsgDominated(m: Msg) {
    && m.configEpoch <= m.currentEpoch
    && (m.body.Update? ==> m.body.epoch <= m.currentEpoch)
  }

  ghost predicate VoteDominates(v: Vote) {
    forall x :: x in v.seen ==> x <= v.epoch
  }

  /** Every config epoch a node knows, or a packet carries, is at most the accompanying currentEpoch;
      and every vote was cast in an epoch at least as great as all config epochs its voter knew. */
  ghost predicate Dominated(s: State) {
    && (forall id :: id in s.nodes ==> NodeDominated(s.nodes[id]))
    && (forall m :: m in s.net ==> MsgDominated(m))
    && (forall v :: v in s.hist.votes ==> VoteDominates(v))
  }

  ghost predicate EffectDominated(e: Effect, h: History) {
    && NodeDominated(e.node)
    && (forall m :: m in e.sent ==> MsgDominated(m))
    && (forall v :: v in e.hist.votes ==> v in h.votes || VoteDominates(v))
  }

  lemma HeaderDominated(n: Node, m: Msg)
    requires NodeDominated(n) && MsgDominated(m)
    ensures NodeDominated(ProcessHeader(n, m))
  {
  }

  lemma PacketDominated(me: NodeId, n: Node, dst: NodeId, body: Body)
    requires NodeDominated(n) && me in n.peers
    requires body.Update? ==> body.epoch <= n.currentEpoch
    ensures MsgDominated(Packet(me, n, dst, body))
  {
  }

  lemma NextEpochDominates(me: NodeId, n: Node)
    requires NodeDominated(n) && me in n.peers
    ensures NodeDominated(TakeNextEpoch(me, n))
    ensures forall id :: id in n.peers ==> n.peers[id].configEpoch < TakeNextEpoch(me, n).peers[me].configEpoch
  {
  }

  lemma PingDominated(me: NodeId, n: Node, m: Msg)
    requires NodeDominated(n) && m.body.Ping?
    ensures NodeDominated(OnPing(me, n, m))
  {
    var n1 := if m.src in n.peers
              then n.(peers := n.peers[m.src := n.peers[m.src].(isMaster := m.body.senderIsMaster)])
              else n;
    assert NodeDominated(n1);
    if me in n1.peers {
      NextEpochDominates(me, n1);
    }
  }

  lemma RequestDominated(nodeTimeout: int, me: NodeId, n: Node, h: History, m: Msg, now: int)
    requires NodeDominated(n) && m.body.AuthRequest?
    ensures EffectDominated(OnRequest(nodeTimeout, me, n, h, m, now), h)
  {
    if me in n.peers {
      PacketDominated(me, n, m.src, AuthAck);
    }
  }

  lemma LearnDominated(n: Node, m: Msg)
    requires NodeDominated(n) && m.body.Update? && m.body.epoch <= n.currentEpoch
    ensures NodeDominated(LearnEpoch(n, m))
  {
  }

  lemma ProcessDominated(nodeTimeout: int, me: NodeId, n0: Node, h: History, m: Msg, now: int)
    requires NodeDominated(n0) && MsgDominated(m)
    ensures EffectDominated(Process(nodeTimeout, me, n0, h, m, now), h)
  {
    var n := ProcessHeader(n0, m);
    HeaderDominated(n0, m);
    match m.body
    case Ping(_) => PingDominated(me, n, m);
    case Update(_, _) =>
      if m.src in n0.peers {
        LearnDominated(n, m);
      }
    case AuthRequest(_, _) => RequestDominated(nodeTimeout, me, n, h, m, now);
    case AuthAck =>
  }

  lemma ActDominated(me: NodeId, n: Node, h: History, a: Action)
    requires NodeDominated(n) && CanAct(me, n, a)
    ensures EffectDominated(Act(me, n, h, a), h)
  {
    match a
    case Heartbeat(dst) => PacketDominated(me, n, dst, Ping(n.peers[me].isMaster));
    case SendUpdate(dst, about) => PacketDominated(me, n, dst, Update(about, n.peers[about].configEpoch));
    case RequestVotes(_, force) =>
      var n' := StartElection(n);
      forall d | d in n.peers
        ensures MsgDominated(Packet(me, n', d, AuthRequest(ClaimedSlots(me, n'), force)))
      {
        PacketDominated(me, n', d, AuthRequest(ClaimedSlots(me, n'), force));
      }
    case BumpEpoch => NextEpochDominates(me, n);
    case _ =>
  }

  lemma ApplyKeepsDominated(s: State, consumed: multiset<Msg>, at: NodeId, e: Effect)
    requires Dominated(s) && EffectDominated(e, s.hist)
    ensures Dominated(Apply(s, consumed, at, e))
  {
    var t := Apply(s, consumed, at, e);
    forall m | m in t.net
      ensures MsgDominated(m)
    {
      assert m in s.net || m in e.sent;
    }
  }

  lemma StepKeepsDominated(nodeTimeout: int, s: State, e: Event)
    requires Enabled(s, e) && Dominated(s)
    ensures Dominated(Step(nodeTimeout, s, e))
  {
    match e
    case Deliver(m, now) =>
      var f := Process(nodeTimeout, m.dst, s.nodes[m.dst], s.hist, m, now);
      ProcessDominated(nodeTimeout, m.dst, s.nodes[m.dst], s.hist, m, now);
      ApplyKeepsDominated(s, multiset{m}, m.dst, f);
    case Lose(m) =>
    case Local(at, a) =>
      ActDominated(at, s.nodes[at], s.hist, a);
      ApplyKeepsDominated(s, multiset{}, at, Act(at, s.nodes[at], s.hist, a));
  }

  // ---------------------------------------------------------------- votes

  ghost predicate HasVote(votes: set<Vote>, voter: NodeId, epoch: nat, candidate: NodeId) {
    exists v :: v in votes && v.voter == voter && v.epoch == epoch && v.candidate == candidate
  }

  /** A vote's epoch is bounded by its voter's lastVoteEpoch and its candidate's election epoch. */
  ghost predicate VoteSound(s: State, v: Vote) {
    && v.voter in s.nodes && v.epoch <= s.nodes[v.voter].lastVoteEpoch
    && v.candidate in s.nodes && v.epoch <= s.nodes[v.candidate].authEpoch
  }

  ghost predicate OneVotePerEpoch(votes: set<Vote>) {
    forall v, w :: v in votes && w in votes && v.voter == w.voter && v.epoch == w.epoch ==> v == w
  }

  /** An acknowledgement in flight stands for one vote, not yet counted. */
  ghost predicate AckSound(s: State, m: Msg) {
    && s.net[m] == 1
    && HasVote(s.hist.votes, m.src, m.currentEpoch, m.dst)
    && (m.dst in s.nodes && m.currentEpoch == s.nodes[m.dst].authEpoch ==> m.src !in Tally(s.hist, m.dst))
  }

  ghost predicate RequestSound(s: State, m: Msg) {
    m.src in s.nodes && m.currentEpoch <= s.nodes[m.src].authEpoch
  }

  ghost predicate NetSound(s: State) {
    && (forall m :: m in s.net && m.body.AuthRequest? ==> RequestSound(s, m))
    && (forall m :: m in s.net && m.body.AuthAck? ==> AckSound(s, m))
    && (forall m, k | m in s.net && k in s.net && m.body.AuthAck? && k.body.AuthAck? ::
          m.src == k.src && m.currentEpoch == k.currentEpoch ==> m == k)
  }

  /** failover_auth_count is the number of voters of this very election, plus the stale ones. */
  ghost predicate CountSound(s: State, c: NodeId)
    requires c in s.nodes
  {
    && s.nodes[c].authCount == |Tally(s.hist, c)| + Stale(s.hist, c)
    && (!s.nodes[c].authSent ==> Tally(s.hist, c) == {})
    && (forall v :: v in Tally(s.hist, c) ==> HasVote(s.hist.votes, v, s.nodes[c].authEpoch, c))
  }

  ghost predicate WinSound(votes: set<Vote>, w: Win) {
    && |w.tally| + w.stale >= w.size / 2 + 1
    && (forall v :: v in w.tally ==> HasVote(votes, v, w.epoch, w.candidate))
  }

  ghost predicate HistorySound(s: State) {
    && OneVotePerEpoch(s.hist.votes)
    && (forall v :: v in s.hist.votes ==> VoteSound(s, v))
    && (forall w :: w in s.hist.wins ==> WinSound(s.hist.votes, w))
  }

  ghost predicate Sound(s: State) {
    && Dominated(s) && HistorySound(s) && NetSound(s)
    && (forall c :: c in s.nodes ==> CountSound(s, c))
  }

  /** Effects that cast no vote and send no acknowledgement. */
  ghost predicate CastsNoVote(n: Node, h: History, e: Effect) {
    && e.hist.votes == h.votes
    && e.node.lastVoteEpoch == n.lastVoteEpoch && n.authEpoch <= e.node.authEpoch
    && forall m :: m in e.sent ==> !m.body.AuthAck?
  }

  ghost predicate OtherCountsKept(h: History, k: History, at: NodeId) {
    forall c :: c != at ==> Tally(h, c) == Tally(k, c) && Stale(h, c) == Stale(k, c)
  }

  lemma KeepHistory(s: State, consumed: multiset<Msg>, at: NodeId, e: Effect)
    requires HistorySound(s) && at in s.nodes && CastsNoVote(s.nodes[at], s.hist, e)
    requires forall w :: w in e.hist.wins ==> w in s.hist.wins || WinSound(s.hist.votes, w)
    ensures HistorySound(Apply(s, consumed, at, e))
  {
    var t := Apply(s, consumed, at, e);
    forall v | v in t.hist.votes
      ensures VoteSound(t, v)
    {
      assert VoteSound(s, v);
    }
  }

  lemma KeepNet(s: State, consumed: multiset<Msg>, at: NodeId, e: Effect)
    requires NetSound(s) && at in s.nodes && CastsNoVote(s.nodes[at], s.hist, e) && OtherCountsKept(s.hist, e.hist, at)
    requires forall m :: m in e.sent && m.body.AuthRequest? ==> m.src == at && m.currentEpoch <= e.node.authEpoch
    requires forall m :: m in s.net - consumed && m.body.AuthAck? && m.dst == at && m.currentEpoch == e.node.authEpoch
                         ==> m.src !in Tally(e.hist, at)
    ensures NetSound(Apply(s, consumed, at, e))
  {
    var t := Apply(s, consumed, at, e);
    forall m | m in t.net && m.body.AuthAck?
      ensures m in s.net && AckSound(t, m)
    {
      assert e.sent[m] == 0;
      assert m in s.net - consumed;
      assert AckSound(s, m);
    }
    forall m | m in t.net && m.body.AuthRequest?
      ensures RequestSound(t, m)
    {
      if m in s.net {
        assert RequestSound(s, m);
      } else {
        assert m in e.sent;
      }
    }
  }

  lemma KeepCounts(s: State, consumed: multiset<Msg>, at: NodeId, e: Effect)
    requires forall c :: c in s.nodes ==> CountSound(s, c)
    requires at in s.nodes && e.hist.votes == s.hist.votes && OtherCountsKept(s.hist, e.hist, at)
    requires CountSound(Apply(s, consumed, at, e), at)
    ensures forall c :: c in s.nodes ==> CountSound(Apply(s, consumed, at, e), c)
  {
    forall c | c in s.nodes
      ensures CountSound(Apply(s, consumed, at, e), c)
    {
      assert CountSound(s, c);
    }
  }

  ghost predicate AcksUncounted(s: State, consumed: multiset<Msg>, at: NodeId, e: Effect) {
    forall m :: m in s.net - consumed && m.body.AuthAck? && m.dst == at && m.currentEpoch == e.node.authEpoch
                ==> m.src !in Tally(e.hist, at)
  }

  ghost predicate CountOk(e: Effect, at: NodeId) {
    && e.node.authCount == |Tally(e.hist, at)| + Stale(e.hist, at)
    && (!e.node.authSent ==> Tally(e.hist, at) == {})
    && (forall v :: v in Tally(e.hist, at) ==> HasVote(e.hist.votes, v, e.node.authEpoch, at))
  }

  /** What an effect that casts no vote must satisfy, node by node. */
  ghost predicate VotelessEffect(s: State, consumed: multiset<Msg>, at: NodeId, e: Effect) {
    && at in s.nodes && CastsNoVote(s.nodes[at], s.hist, e) && OtherCountsKept(s.hist, e.hist, at)
    && EffectDominated(e, s.hist)
    && (forall w :: w in e.hist.wins ==> w in s.hist.wins || WinSound(s.hist.votes, w))
    && (forall m :: m in e.sent && m.body.AuthRequest? ==> m.src == at && m.currentEpoch <= e.node.authEpoch)
    && AcksUncounted(s, consumed, at, e)
    && CountOk(e, at)
  }

  lemma VotelessKeepsSound(s: State, consumed: multiset<Msg>, at: NodeId, e: Effect)
    requires Sound(s) && VotelessEffect(s, consumed, at, e)
    ensures Sound(Apply(s, consumed, at, e))
  {
    ApplyKeepsDominated(s, consumed, at, e);
    KeepHistory(s, consumed, at, e);
    KeepCounts(s, consumed, at, e);
    KeepNet(s, consumed, at, e);
  }

  /** The effect leaves everything the election invariant speaks about as it was. */
  ghost predicate Quiet(n: Node, h: History, e: Effect) {
    && e.node.authEpoch == n.authEpoch && e.node.authCount == n.authCount && e.node.authSent == n.authSent
    && e.node.lastVoteEpoch == n.lastVoteEpoch
    && e.hist == h
    && forall m :: m in e.sent ==> m.body.Ping? || m.body.Update?
  }

  lemma AcksAreUncounted(s: State, consumed: multiset<Msg>, at: NodeId)
    requires NetSound(s) && at in s.nodes
    ensures forall m :: m in s.net - consumed && m.body.AuthAck? && m.dst == at && m.currentEpoch == s.nodes[at].authEpoch
                        ==> m.src !in Tally(s.hist, at)
  {
    forall m | m in s.net - consumed && m.body.AuthAck?
      ensures AckSound(s, m)
    {
    }
  }

  lemma QuietKeepsSound(s: State, consumed: multiset<Msg>, at: NodeId, e: Effect)
    requires Sound(s) && at in s.nodes && Quiet(s.nodes[at], s.hist, e) && EffectDominated(e, s.hist)
    ensures Sound(Apply(s, consumed, at, e))
  {
    AcksAreUncounted(s, consumed, at);
    assert CountSound(s, at);
    VotelessKeepsSound(s, consumed, at, e);
  }

  // ---------------------------------------------------------------- granting a vote

  /** What OnRequest does when it grants a vote: the voter has not voted in this epoch, and the
      candidate asked in it. */
  ghost predicate Grants(s: State, me: NodeId, n: Node, e: Effect, ack: Msg, vote: Vote) {
    && me in s.nodes && vote.candidate in s.nodes
    && vote.voter == me && vote.epoch == n.currentEpoch && vote.epoch <= s.nodes[vote.candidate].authEpoch
    && s.nodes[me].lastVoteEpoch < n.currentEpoch
    && ack.body.AuthAck? && ack.src == me && ack.dst == vote.candidate && ack.currentEpoch == n.currentEpoch
    && e.node.authEpoch == s.nodes[me].authEpoch && e.node.authCount == s.nodes[me].authCount
    && e.node.authSent == s.nodes[me].authSent && e.node.lastVoteEpoch == n.currentEpoch
    && e.sent == multiset{ack}
    && e.hist == s.hist.(votes := s.hist.votes + {vote})
  }

  lemma GrantKeepsVotes(s: State, consumed: multiset<Msg>, n: Node, e: Effect, ack: Msg, vote: Vote)
    requires HistorySound(s) && Grants(s, vote.voter, n, e, ack, vote)
    ensures HistorySound(Apply(s, consumed, vote.voter, e))
    ensures !exists c :: HasVote(s.hist.votes, vote.voter, vote.epoch, c)
  {
    var t := Apply(s, consumed, vote.voter, e);
    forall v | v in s.hist.votes
      ensures !(v.voter == vote.voter && v.epoch == vote.epoch) && VoteSound(t, v)
    {
      assert VoteSound(s, v);
    }
    forall w | w in t.hist.wins
      ensures WinSound(t.hist.votes, w)
    {
      assert WinSound(s.hist.votes, w);
      VotesGrow(s.hist.votes, t.hist.votes);
    }
  }

  lemma VotesGrow(before: set<Vote>, after: set<Vote>)
    requires before <= after
    ensures forall v, e, c :: HasVote(before, v, e, c) ==> HasVote(after, v, e, c)
  {
  }

  lemma GrantKeepsNet(s: State, consumed: multiset<Msg>, n: Node, e: Effect, ack: Msg, vote: Vote)
    requires Sound(s) && Grants(s, vote.voter, n, e, ack, vote)
    ensures NetSound(Apply(s, consumed, vote.voter, e))
  {
    var t := Apply(s, consumed, vote.voter, e);
    GrantKeepsVotes(s, consumed, n, e, ack, vote);
    VotesGrow(s.hist.votes, t.hist.votes);
    assert HasVote(t.hist.votes, ack.src, ack.currentEpoch, ack.dst) by {
      assert vote in t.hist.votes;
    }
    forall a | a in s.net && a.body.AuthAck?
      ensures !(a.src == ack.src && a.currentEpoch == ack.currentEpoch)
    {
      assert AckSound(s, a);
    }
    forall a | a in t.net && a.body.AuthAck?
      ensures AckSound(t, a)
    {
      if a == ack {
        assert CountSound(s, ack.dst);
      } else {
        assert AckSound(s, a);
      }
    }
    forall a | a in t.net && a.body.AuthRequest?
      ensures RequestSound(t, a)
    {
      assert RequestSound(s, a);
    }
  }

  lemma GrantKeepsSound(s: State, consumed: multiset<Msg>, n: Node, e: Effect, ack: Msg, vote: Vote)
    requires Sound(s) && Grants(s, vote.voter, n, e, ack, vote) && EffectDominated(e, s.hist)
    ensures Sound(Apply(s, consumed, vote.voter, e))
  {
    var t := Apply(s, consumed, vote.voter, e);
    ApplyKeepsDominated(s, consumed, vote.voter, e);
    GrantKeepsVotes(s, consumed, n, e, ack, vote);
    GrantKeepsNet(s, consumed, n, e, ack, vote);
    VotesGrow(s.hist.votes, t.hist.votes);
    forall c | c in t.nodes
      ensures CountSound(t, c)
    {
      assert CountSound(s, c);
    }
  }

  lemma RequestKeepsSound(nodeTimeout: int, s: State, m: Msg, now: int)
    requires Sound(s) && m in s.net && m.dst in s.nodes && m.body.AuthRequest?
    ensures Sound(Apply(s, multiset{m}, m.dst, Process(nodeTimeout, m.dst, s.nodes[m.dst], s.hist, m, now)))
  {
    var me := m.dst;
    var n0 := s.nodes[me];
    var n := ProcessHeader(n0, m);
    var e := OnRequest(nodeTimeout, me, n, s.hist, m, now);
    ProcessDominated(nodeTimeout, me, n0, s.hist, m, now);
    HeaderDominated(n0, m);
    if me in n.peers && GrantsVote(me, n, m, now, nodeTimeout) {
      assert RequestSound(s, m);
      GrantKeepsSound(s, multiset{m}, n, e, Packet(me, n, m.src, AuthAck),
                      Vote(me, n.currentEpoch, m.src, KnownEpochs(n)));
    } else {
      QuietKeepsSound(s, multiset{m}, me, e);
    }
  }

  // ---------------------------------------------------------------- counting a vote

  /** A counted acknowledgement is a new voter of this election, or a stale one. */
  lemma CountedOnce(s: State, m: Msg, n: Node)
    requires Sound(s) && m in s.net && m.dst in s.nodes && m.body.AuthAck?
    requires n == ProcessHeader(s.nodes[m.dst], m) && CountsAck(n, m)
    ensures m.currentEpoch == n.authEpoch && m.src !in Tally(s.hist, m.dst)
    ensures HasVote(s.hist.votes, m.src, n.authEpoch, m.dst)
  {
    assert AckSound(s, m);
    var v :| v in s.hist.votes && v.voter == m.src && v.epoch == m.currentEpoch && v.candidate == m.dst;
    assert VoteSound(s, v);
  }

  lemma NoSecondAck(s: State, m: Msg)
    requires NetSound(s) && m in s.net && m.body.AuthAck?
    ensures forall a :: a in s.net - multiset{m} && a.body.AuthAck? && a.currentEpoch == m.currentEpoch ==> a.src != m.src
  {
    assert AckSound(s, m);
  }

  lemma CountedIsVoteless(s: State, m: Msg, n: Node)
    requires Sound(s) && m in s.net && m.dst in s.nodes && m.body.AuthAck?
    requires n == ProcessHeader(s.nodes[m.dst], m) && CountsAck(n, m)
    ensures VotelessEffect(s, multiset{m}, m.dst, OnAck(m.dst, n, s.hist, m))
  {
    HeaderDominated(s.nodes[m.dst], m);
    CountedOnce(s, m, n);
    NoSecondAck(s, m);
    AcksAreUncounted(s, multiset{m}, m.dst);
    assert CountSound(s, m.dst);
  }

  lemma AckKeepsSound(nodeTimeout: int, s: State, m: Msg, now: int)
    requires Sound(s) && m in s.net && m.dst in s.nodes && m.body.AuthAck?
    ensures Sound(Apply(s, multiset{m}, m.dst, Process(nodeTimeout, m.dst, s.nodes[m.dst], s.hist, m, now)))
  {
    var n0 := s.nodes[m.dst];
    var n := ProcessHeader(n0, m);
    var e := OnAck(m.dst, n, s.hist, m);
    if CountsAck(n, m) {
      CountedIsVoteless(s, m, n);
      VotelessKeepsSound(s, multiset{m}, m.dst, e);
    } else {
      ProcessDominated(nodeTimeout, m.dst, n0, s.hist, m, now);
      QuietKeepsSound(s, multiset{m}, m.dst, e);
    }
  }

  // ---------------------------------------------------------------- the candidate's own steps

  lemma ScheduleIsVoteless(s: State, at: NodeId, a: Action)
    requires Sound(s) && at in s.nodes && CanAct(at, s.nodes[at], a) && a.Schedule?
    ensures VotelessEffect(s, multiset{}, at, Act(at, s.nodes[at], s.hist, a))
  {
    ActDominated(at, s.nodes[at], s.hist, a);
  }

  lemma WinIsVoteless(s: State, at: NodeId, a: Action)
    requires Sound(s) && at in s.nodes && CanAct(at, s.nodes[at], a) && a.WinElection?
    ensures VotelessEffect(s, multiset{}, at, Act(at, s.nodes[at], s.hist, a))
  {
    ActDominated(at, s.nodes[at], s.hist, a);
    AcksAreUncounted(s, multiset{}, at);
    assert CountSound(s, at);
  }

  lemma StartIsVoteless(s: State, at: NodeId, a: Action)
    requires Sound(s) && at in s.nodes && CanAct(at, s.nodes[at], a) && a.RequestVotes?
    ensures VotelessEffect(s, multiset{}, at, Act(at, s.nodes[at], s.hist, a))
  {
    ActDominated(at, s.nodes[at], s.hist, a);
    assert CountSound(s, at);
  }

  lemma LoseKeepsSound(s: State, m: Msg)
    requires Sound(s)
    ensures Sound(s.(net := s.net - multiset{m}))
  {
    var t := s.(net := s.net - multiset{m});
    forall v | v in t.hist.votes
      ensures VoteSound(t, v)
    {
      assert VoteSound(s, v);
    }
    forall a | a in t.net && a.body.AuthAck?
      ensures AckSound(t, a)
    {
      assert AckSound(s, a);
    }
    forall a | a in t.net && a.body.AuthRequest?
      ensures RequestSound(t, a)
    {
      assert RequestSound(s, a);
    }
    forall c | c in t.nodes
      ensures CountSound(t, c)
    {
      assert CountSound(s, c);
    }
  }

  // ---------------------------------------------------------------- all steps, all runs

  lemma ActKeepsSound(s: State, at: NodeId, a: Action)
    requires Sound(s) && at in s.nodes && CanAct(at, s.nodes[at], a)
    ensures Sound(Apply(s, multiset{}, at, Act(at, s.nodes[at], s.hist, a)))
  {
    var e := Act(at, s.nodes[at], s.hist, a);
    match a
    case Schedule(_) =>
      ScheduleIsVoteless(s, at, a);
      VotelessKeepsSound(s, multiset{}, at, e);
    case RequestVotes(_, _) =>
      StartIsVoteless(s, at, a);
      VotelessKeepsSound(s, multiset{}, at, e);
    case WinElection(_) =>
      WinIsVoteless(s, at, a);
      VotelessKeepsSound(s, multiset{}, at, e);
    case _ =>
      ActDominated(at, s.nodes[at], s.hist, a);
      QuietKeepsSound(s, multiset{}, at, e);
  }

  lemma StepKeepsSound(nodeTimeout: int, s: State, e: Event)
    requires Enabled(s, e) && Sound(s)
    ensures Sound(Step(nodeTimeout, s, e))
  {
    match e
    case Deliver(m, now) =>
      if m.body.AuthRequest? {
        RequestKeepsSound(nodeTimeout, s, m, now);
      } else if m.body.AuthAck? {
        AckKeepsSound(nodeTimeout, s, m, now);
      } else {
        ProcessDominated(nodeTimeout, m.dst, s.nodes[m.dst], s.hist, m, now);
        QuietKeepsSound(s, multiset{m}, m.dst,
                        Process(nodeTimeout, m.dst, s.nodes[m.dst], s.hist, m, now));
      }
    case Lose(m) => LoseKeepsSound(s, m);
    case Local(at, a) => ActKeepsSound(s, at, a);
  }

  lemma InitIsSound(s: State)
    requires Init(s)
    ensures Sound(s)
  {
  }

  lemma {:induction false} RunKeepsSound(nodeTimeout: int, s0: State, run: seq<Event>, s: State)
    requires Sound(s0) && Runs(nodeTimeout, s0, run, s)
    ensures Sound(s)
    decreases |run|
  {
    if run != [] {
      StepKeepsSound(nodeTimeout, s0, run[0]);
      RunKeepsSound(nodeTimeout, Step(nodeTimeout, s0, run[0]), run[1..], s);
    }
  }

  // ---------------------------------------------------------------- votes, in every run

  lemma ReachableIsSound(nodeTimeout: int, s0: State, run: seq<Event>, s: State)
    requires Init(s0) && Runs(nodeTimeout, s0, run, s)
    ensures Sound(s)
  {
    InitIsSound(s0);
    RunKeepsSound(nodeTimeout, s0, run, s);
  }

  /** Each master grants at most one vote per epoch, whatever the nodes believe about each other. */
  lemma OneVoteEach(nodeTimeout: int, s0: State, run: seq<Event>, s: State)
    requires Init(s0) && Runs(nodeTimeout, s0, run, s)
    ensures OneVotePerEpoch(s.hist.votes)
  {
    ReachableIsSound(nodeTimeout, s0, run, s);
  }

  // ---------------------------------------------------------------- the electorate

  /** `voters(e)`: the slot-serving masters of epoch `e`. */
  type Electorate = nat -> set<NodeId>

  /** The acting node's view of who serves slots fits the electorate: it votes only as one of the voters of the
      epoch, and wins knowing all of them. */
  predicate AgreedAt(voters: Electorate, s: State, e: Event)
    requires Enabled(s, e)
  {
    match e
    case Deliver(m, _) =>
      var n := ProcessHeader(s.nodes[m.dst], m);
      m.body.AuthRequest? && m.dst in Serving(n) ==> m.dst in voters(n.currentEpoch)
    case Local(at, WinElection(_)) => voters(s.nodes[at].authEpoch) <= Serving(s.nodes[at])
    case _ => true
  }

  /** Wherever it matters in the run, views and electorate agree. */
  predicate Agreed(voters: Electorate, nodeTimeout: int, s0: State, run: seq<Event>)
    decreases |run|
  {
    run == [] || (Enabled(s0, run[0]) ==>
      AgreedAt(voters, s0, run[0]) && Agreed(voters, nodeTimeout, Step(nodeTimeout, s0, run[0]), run[1..]))
  }

  ghost predicate Elected(voters: Electorate, h: History) {
    && (forall v :: v in h.votes ==> v.voter in voters(v.epoch))
    && (forall w :: w in h.wins ==> |voters(w.epoch)| <= w.size)
  }

  lemma StepKeepsElected(voters: Electorate, nodeTimeout: int, s: State, e: Event)
    requires Enabled(s, e) && AgreedAt(voters, s, e) && Elected(voters, s.hist)
    ensures Elected(voters, Step(nodeTimeout, s, e).hist)
  {
    if e.Local? && e.action.WinElection? {
      SubsetSize(voters(s.nodes[e.at].authEpoch), Serving(s.nodes[e.at]));
    }
  }

  lemma {:induction false} RunKeepsElected(voters: Electorate, nodeTimeout: int, s0: State, run: seq<Event>, s: State)
    requires Runs(nodeTimeout, s0, run, s) && Agreed(voters, nodeTimeout, s0, run) && Elected(voters, s0.hist)
    ensures Elected(voters, s.hist)
    decreases |run|
  {
    if run != [] {
      StepKeepsElected(voters, nodeTimeout, s0, run[0]);
      RunKeepsElected(voters, nodeTimeout, Step(nodeTimeout, s0, run[0]), run[1..], s);
    }
  }

  // ---------------------------------------------------------------- winners

  lemma TallyAreVoters(voters: Electorate, s: State, w: Win)
    requires Sound(s) && Elected(voters, s.hist) && w in s.hist.wins
    ensures w.tally <= voters(w.epoch)
    ensures |w.tally| + w.stale > |voters(w.epoch)| / 2
  {
    assert WinSound(s.hist.votes, w);
    forall id | id in w.tally
      ensures id in voters(w.epoch)
    {
      var v :| v in s.hist.votes && v.voter == id && v.epoch == w.epoch && v.candidate == w.candidate;
    }
  }

  /** Two failovers won in the same epoch, with real votes that together outnumber the voters, were won by the same
      slave. Two majorities of real votes do. */
  lemma AtMostOneWinnerPerEpoch(voters: Electorate, nodeTimeout: int, s0: State, run: seq<Event>, s: State, w1: Win, w2: Win)
    requires Init(s0) && Runs(nodeTimeout, s0, run, s) && Agreed(voters, nodeTimeout, s0, run)
    requires w1 in s.hist.wins && w2 in s.hist.wins && w1.epoch == w2.epoch
    requires |w1.tally| + |w2.tally| > |voters(w1.epoch)|
    ensures w1.candidate == w2.candidate
  {
    ReachableIsSound(nodeTimeout, s0, run, s);
    RunKeepsElected(voters, nodeTimeout, s0, run, s);
    TallyAreVoters(voters, s, w1);
    TallyAreVoters(voters, s, w2);
    CrowdsMeet(w1.tally, w2.tally, voters(w1.epoch));
    var v :| v in w1.tally * w2.tally;
    assert WinSound(s.hist.votes, w1) && WinSound(s.hist.votes, w2);
    assert HasVote(s.hist.votes, v, w1.epoch, w1.candidate) && HasVote(s.hist.votes, v, w1.epoch, w2.candidate);
  }

  // ---------------------------------------------------------------- the window

  /** The acknowledgement delivered by `e` is counted although no election is under way: the counter has
      been cleared, the next election's epoch has not been drawn. */
  predicate InWindow(s: State, e: Event)
    requires Enabled(s, e)
  {
    && e.Deliver? && e.m.body.AuthAck?
    && var n := ProcessHeader(s.nodes[e.m.dst], e.m);
    CountsAck(n, e.m) && !n.authSent
  }

  /** How many deliveries to `c` fell into the window since `c` last scheduled an election; `before` of them
      happened before this run. */
  function WindowCount(nodeTimeout: int, s0: State, run: seq<Event>, c: NodeId, before: nat): nat
    decreases |run|
  {
    if run == [] || !Enabled(s0, run[0]) then before
    else WindowCount(nodeTimeout, Step(nodeTimeout, s0, run[0]), run[1..], c, WindowCountAfter(s0, run[0], c, before))
  }

  function WindowCountAfter(s: State, e: Event, c: NodeId, before: nat): nat
    requires Enabled(s, e)
  {
    if e.Local? && e.at == c && e.action.Schedule? then 0
    else if InWindow(s, e) && e.m.dst == c then before + 1
    else before
  }

  /** No delivery to `c` has fallen into the window since `c` last scheduled an election. */
  predicate FreshSince(nodeTimeout: int, s0: State, run: seq<Event>, c: NodeId, before: bool)
    decreases |run|
  {
    if run == [] || !Enabled(s0, run[0]) then before
    else
      var e := run[0];
      var now := if e.Local? && e.at == c && e.action.Schedule? then true
                 else before && !(InWindow(s0, e) && e.m.dst == c);
      FreshSince(nodeTimeout, Step(nodeTimeout, s0, e), run[1..], c, now)
  }

  lemma {:induction false} FreshIsZero(nodeTimeout: int, s0: State, run: seq<Event>, c: NodeId, before: nat)
    ensures FreshSince(nodeTimeout, s0, run, c, before == 0) <==> WindowCount(nodeTimeout, s0, run, c, before) == 0
    decreases |run|
  {
    hide Step;
    if run != [] && Enabled(s0, run[0]) {
      FreshIsZero(nodeTimeout, Step(nodeTimeout, s0, run[0]), run[1..], c, WindowCountAfter(s0, run[0], c, before));
    }
  }

  lemma StaleIsCounted(nodeTimeout: int, s: State, e: Event, c: NodeId)
    requires Enabled(s, e)
    ensures Stale(Step(nodeTimeout, s, e).hist, c) == WindowCountAfter(s, e, c, Stale(s.hist, c))
  {
  }

  /** The stale acknowledgements of the bookkeeping are the deliveries that fell into the window. */
  lemma {:induction false} StaleCountsWindow(nodeTimeout: int, s0: State, run: seq<Event>, s: State, c: NodeId)
    requires Runs(nodeTimeout, s0, run, s)
    ensures Stale(s.hist, c) == WindowCount(nodeTimeout, s0, run, c, Stale(s0.hist, c))
    decreases |run|
  {
    if run != [] {
      StaleIsCounted(nodeTimeout, s0, run[0], c);
      StaleCountsWindow(nodeTimeout, Step(nodeTimeout, s0, run[0]), run[1..], s, c);
    }
  }

  /** Masters that have voted for `c` in its current election and whose acknowledgement was delivered to it while that
      election was under way. */
  function Heeded(nodeTimeout: int, s0: State, run: seq<Event>, c: NodeId, before: set<NodeId>): set<NodeId>
    decreases |run|
  {
    if run == [] || !Enabled(s0, run[0]) then before
    else Heeded(nodeTimeout, Step(nodeTimeout, s0, run[0]), run[1..], c, HeededAfter(s0, run[0], c, before))
  }

  function HeededAfter(s: State, e: Event, c: NodeId, before: set<NodeId>): set<NodeId>
    requires Enabled(s, e)
  {
    if e.Local? && e.at == c && e.action.Schedule? then {}
    else if e.Deliver? && e.m.dst == c && e.m.body.AuthAck? && CountsAck(ProcessHeader(s.nodes[c], e.m), e.m)
            && s.nodes[c].authSent then before + {e.m.src}
    else before
  }

  lemma TallyIsHeeded(nodeTimeout: int, s: State, e: Event, c: NodeId)
    requires Enabled(s, e)
    ensures Tally(Step(nodeTimeout, s, e).hist, c) == HeededAfter(s, e, c, Tally(s.hist, c))
  {
  }

  lemma {:induction false} TallyCountsHeeded(nodeTimeout: int, s0: State, run: seq<Event>, s: State, c: NodeId)
    requires Runs(nodeTimeout, s0, run, s)
    ensures Tally(s.hist, c) == Heeded(nodeTimeout, s0, run, c, Tally(s0.hist, c))
    decreases |run|
  {
    if run != [] {
      TallyIsHeeded(nodeTimeout, s0, run[0], c);
      TallyCountsHeeded(nodeTimeout, Step(nodeTimeout, s0, run[0]), run[1..], s, c);
    }
  }

  /** failover_auth_count is the number of masters heard voting in the current election exactly when no
      acknowledgement arrived between clearing the counter and drawing the epoch; every other delivery of that kind
      adds one to it that nobody gave. All of it read off the events. */
  lemma CountIsHonestExactlyWhenFresh(nodeTimeout: int, s0: State, run: seq<Event>, s: State, c: NodeId)
    requires Init(s0) && Runs(nodeTimeout, s0, run, s) && c in s.nodes
    ensures var heard := Heeded(nodeTimeout, s0, run, c, {});
            && (forall v :: v in heard ==> HasVote(s.hist.votes, v, s.nodes[c].authEpoch, c))
            && s.nodes[c].authCount == |heard| + WindowCount(nodeTimeout, s0, run, c, 0)
            && (s.nodes[c].authCount == |heard| <==> FreshSince(nodeTimeout, s0, run, c, true))
  {
    ReachableIsSound(nodeTimeout, s0, run, s);
    assert CountSound(s, c);
    StaleCountsWindow(nodeTimeout, s0, run, s, c);
    TallyCountsHeeded(nodeTimeout, s0, run, s, c);
    FreshIsZero(nodeTimeout, s0, run, c, 0);
  }

  // ---------------------------------------------------------------- election safety

  /** No acknowledgement of an abandoned election is counted anywhere in the run. */
  predicate WindowFree(nodeTimeout: int, s0: State, run: seq<Event>)
    decreases |run|
  {
    run == [] || (Enabled(s0, run[0]) ==>
      !InWindow(s0, run[0]) && WindowFree(nodeTimeout, Step(nodeTimeout, s0, run[0]), run[1..]))
  }

  ghost predicate NothingStale(h: History) {
    (forall c :: c in h.stale ==> h.stale[c] == 0) && (forall w :: w in h.wins ==> w.stale == 0)
  }

  lemma ActKeepsFresh(me: NodeId, n: Node, h: History, a: Action)
    requires CanAct(me, n, a) && NothingStale(h)
    ensures NothingStale(Act(me, n, h, a).hist)
  {
  }

  lemma StepKeepsFresh(nodeTimeout: int, s: State, e: Event)
    requires Enabled(s, e) && !InWindow(s, e) && NothingStale(s.hist)
    ensures NothingStale(Step(nodeTimeout, s, e).hist)
  {
    if e.Local? {
      ActKeepsFresh(e.at, s.nodes[e.at], s.hist, e.action);
    }
  }

  lemma {:induction false} RunKeepsFresh(nodeTimeout: int, s0: State, run: seq<Event>, s: State)
    requires Runs(nodeTimeout, s0, run, s) && WindowFree(nodeTimeout, s0, run) && NothingStale(s0.hist)
    ensures NothingStale(s.hist)
    decreases |run|
  {
    if run != [] {
      StepKeepsFresh(nodeTimeout, s0, run[0]);
      RunKeepsFresh(nodeTimeout, Step(nodeTimeout, s0, run[0]), run[1..], s);
    }
  }

  /** Election safety: when views agree on the electorate and the acknowledgements of abandoned elections are lost
      once the counter is cleared, no two slaves win a failover in the same epoch. */
  lemma ElectionSafety(voters: Electorate, nodeTimeout: int, s0: State, run: seq<Event>, s: State, w1: Win, w2: Win)
    requires Init(s0) && Runs(nodeTimeout, s0, run, s) && Agreed(voters, nodeTimeout, s0, run)
    requires WindowFree(nodeTimeout, s0, run)
    requires w1 in s.hist.wins && w2 in s.hist.wins && w1.epoch == w2.epoch
    ensures w1.candidate == w2.candidate
  {
    ReachableIsSound(nodeTimeout, s0, run, s);
    RunKeepsElected(voters, nodeTimeout, s0, run, s);
    RunKeepsFresh(nodeTimeout, s0, run, s);
    TallyAreVoters(voters, s, w1);
    TallyAreVoters(voters, s, w2);
    AtMostOneWinnerPerEpoch(voters, nodeTimeout, s0, run, s, w1, w2);
  }

  // ---------------------------------------------------------------- epochs

  /** Epoch dominance over every run: no node knows, and no packet carries, a config epoch above the
      accompanying currentEpoch; a bumped epoch therefore exceeds every epoch its node knows. */
  lemma EpochDominance(nodeTimeout: int, s0: State, run: seq<Event>, s: State, at: NodeId)
    requires Init(s0) && Runs(nodeTimeout, s0, run, s) && at in s.nodes && at in s.nodes[at].peers
    ensures Dominated(s)
    ensures var n := Bump(at, s.nodes[at]);
            forall id :: id in n.peers && id != at ==> n.peers[id].configEpoch <= n.peers[at].configEpoch
                                                       && (n != s.nodes[at] ==> n.peers[id].configEpoch < n.peers[at].configEpoch)
  {
    ReachableIsSound(nodeTimeout, s0, run, s);
    NextEpochDominates(at, s.nodes[at]);
  }

  /** Whoever voted for a winner knew, when voting, no config epoch above the epoch that was won. */
  lemma WinnerDominatesItsVoters(nodeTimeout: int, s0: State, run: seq<Event>, s: State, w: Win, id: NodeId)
    requires Init(s0) && Runs(nodeTimeout, s0, run, s) && w in s.hist.wins && id in w.tally
    ensures exists v :: v in s.hist.votes && v.voter == id && v.epoch == w.epoch && v.candidate == w.candidate
                        && forall x :: x in v.seen ==> x <= w.epoch
  {
    ReachableIsSound(nodeTimeout, s0, run, s);
    assert WinSound(s.hist.votes, w);
    var v :| v in s.hist.votes && v.voter == id && v.epoch == w.epoch && v.candidate == w.candidate;
    assert VoteDominates(v);
  }
}
