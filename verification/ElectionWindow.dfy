/** Why election safety needs its hypothesis: a run in which the acknowledgements of an abandoned election arrive
    after the counter was cleared, and two slaves win the same epoch, although every node sees the same three masters
    serving slots and the quorum is two. */
module ElectionWindow {
  import opened Base
  import opened ClusterElection
  import opened ElectionSafety

  const NODE_TIMEOUT := 10
  const ONE: NodeId := 1
  const TWO: NodeId := 2
  const FIRST: NodeId := 4
  const SECOND: NodeId := 5
  const FAILED: NodeId := 9

  const MASTER := Peer(0, true, None, false, 0)
  const SLAVE := Peer(0, false, Some(FAILED), false, 0)

  /** Slot 0 and 1 are served by the live masters, slot 2 by the one flagged as failing. */
  const SLOTS: map<nat, NodeId> := map[0 := ONE, 1 := TWO, 2 := FAILED]

  /** What every node believes; only when the failed master's slaves were last voted for differs. */
  function Beliefs(votedTime: int): map<NodeId, Peer> {
    map[ONE := MASTER, TWO := MASTER, FIRST := SLAVE, SECOND := SLAVE, FAILED := Peer(0, true, None, true, votedTime)]
  }

  function Voters(epoch: nat): set<NodeId> {
    {ONE, TWO, FAILED}
  }

  function Candidate(epoch: nat, authEpoch: nat, count: nat, sent: bool): Node {
    Node(epoch, 0, authEpoch, count, sent, Beliefs(0), SLOTS)
  }

  function Voter(epoch: nat, lastVote: nat, votedTime: int): Node {
    Node(epoch, lastVote, 0, 0, false, Beliefs(votedTime), SLOTS)
  }

  function Start(): State {
    State(map[ONE := Voter(0, 0, 0), TWO := Voter(0, 0, 0), FIRST := Candidate(0, 0, 0, false), SECOND := Candidate(0, 0, 0, false)],
          multiset{}, History({}, {}, map[], map[]))
  }

  function Request(from: NodeId, to: NodeId, epoch: nat): Msg {
    Msg(from, to, epoch, 0, AuthRequest({2}, false))
  }

  function Ack(from: NodeId, to: NodeId, epoch: nat): Msg {
    Msg(from, to, epoch, 0, AuthAck)
  }

  ghost predicate IsVoter(id: NodeId) {
    id == ONE || id == TWO
  }

  ghost predicate IsSlave(id: NodeId) {
    id == FIRST || id == SECOND
  }

  // ---------------------------------------------------------------- one handler at a time

  /** Every node counts the failed master among the three that serve slots, so the quorum is two. */
  lemma ThreeServe(n: Node, votedTime: int)
    requires n.peers == Beliefs(votedTime) && n.slots == SLOTS
    ensures Serving(n) == {ONE, TWO, FAILED} && |Serving(n)| == 3
  {
    assert SLOTS.Values == {ONE, TWO, FAILED} by {
      assert 0 in SLOTS && 1 in SLOTS && 2 in SLOTS;
    }
    assert Serving(n) == {ONE, TWO, FAILED};
  }

  /** The master of both slaves is flagged as failing and serves a slot. */
  lemma CandidateMay(id: NodeId, epoch: nat, authEpoch: nat, count: nat, sent: bool)
    requires IsSlave(id)
    ensures var n := Candidate(epoch, authEpoch, count, sent);
            MayFailOver(id, n, false) && ClaimedSlots(id, n) == {2}
  {
    assert SLOTS[2] == FAILED;
  }

  lemma CandidateSchedules(id: NodeId, epoch: nat, authEpoch: nat, sent: bool, h: History)
    requires IsSlave(id)
    ensures CanAct(id, Candidate(epoch, authEpoch, 0, sent), Schedule(false))
    ensures var e := Act(id, Candidate(epoch, authEpoch, 0, sent), h, Schedule(false));
            e.node == Candidate(epoch, authEpoch, 0, false) && e.hist.wins == h.wins && e.sent == multiset{}
  {
    CandidateMay(id, epoch, authEpoch, 0, sent);
  }

  lemma CandidateAsks(id: NodeId, epoch: nat, authEpoch: nat, count: nat, h: History)
    requires IsSlave(id)
    ensures CanAct(id, Candidate(epoch, authEpoch, count, false), RequestVotes(false, false))
    ensures var e := Act(id, Candidate(epoch, authEpoch, count, false), h, RequestVotes(false, false));
            && e.node == Candidate(epoch + 1, epoch + 1, count, true) && e.hist == h
            && Request(id, ONE, epoch + 1) in e.sent && Request(id, TWO, epoch + 1) in e.sent
  {
    CandidateMay(id, epoch, authEpoch, count, false);
    CandidateMay(id, epoch + 1, epoch + 1, count, true);
    var n := Candidate(epoch + 1, epoch + 1, count, true);
    assert Request(id, ONE, epoch + 1) == Packet(id, n, ONE, AuthRequest(ClaimedSlots(id, n), false));
    assert Request(id, TWO, epoch + 1) == Packet(id, n, TWO, AuthRequest(ClaimedSlots(id, n), false));
  }

  lemma VoterGrants(me: NodeId, to: NodeId, epoch: nat, lastVote: nat, votedTime: int, current: nat, h: History)
    requires IsVoter(me) && IsSlave(to) && lastVote < epoch && current <= epoch
    ensures var e := Process(NODE_TIMEOUT, me, Voter(current, lastVote, votedTime), h, Request(to, me, epoch), votedTime + 20);
            e.node == Voter(epoch, epoch, votedTime + 20) && Ack(me, to, epoch) in e.sent && e.hist.wins == h.wins
  {
    var n := ProcessHeader(Voter(current, lastVote, votedTime), Request(to, me, epoch));
    assert n == Voter(epoch, lastVote, votedTime);
    ThreeServe(n, votedTime);
    assert GrantsVote(me, n, Request(to, me, epoch), votedTime + 20, NODE_TIMEOUT);
    assert RecordVote(n, FAILED, votedTime + 20) == Voter(epoch, epoch, votedTime + 20);
    assert Packet(me, n, to, AuthAck) == Ack(me, to, epoch);
  }

  lemma CandidateCounts(id: NodeId, from: NodeId, epoch: nat, count: nat, sent: bool, h: History)
    requires IsSlave(id) && IsVoter(from)
    ensures var e := Process(NODE_TIMEOUT, id, Candidate(epoch, epoch, count, sent), h, Ack(from, id, epoch), 0);
            e.node == Candidate(epoch, epoch, count + 1, sent) && e.hist.wins == h.wins && e.sent == multiset{}
  {
    var n := ProcessHeader(Candidate(epoch, epoch, count, sent), Ack(from, id, epoch));
    assert n == Candidate(epoch, epoch, count, sent);
    ThreeServe(n, 0);
  }

  lemma CandidateWins(id: NodeId, epoch: nat, h: History)
    requires IsSlave(id)
    ensures CanAct(id, Candidate(epoch, epoch, 2, true), WinElection(false))
    ensures Act(id, Candidate(epoch, epoch, 2, true), h, WinElection(false)).hist.wins
            == h.wins + {Win(epoch, id, Tally(h, id), Stale(h, id), 3)}
  {
    CandidateMay(id, epoch, epoch, 2, true);
    ThreeServe(Candidate(epoch, epoch, 2, true), 0);
  }

  lemma VoterPings(epoch: nat, votedTime: int, h: History)
    ensures CanAct(ONE, Voter(epoch, epoch, votedTime), Heartbeat(SECOND))
    ensures var e := Act(ONE, Voter(epoch, epoch, votedTime), h, Heartbeat(SECOND));
            e == Effect(Voter(epoch, epoch, votedTime), multiset{Msg(ONE, SECOND, epoch, 0, Ping(true))}, h)
  {
  }

  lemma CandidateHears(epoch: nat, h: History)
    ensures Process(NODE_TIMEOUT, SECOND, Candidate(0, 0, 0, false), h, Msg(ONE, SECOND, epoch, 0, Ping(true)), 0)
            == Effect(Candidate(epoch, 0, 0, false), multiset{}, h)
  {
    var m := Msg(ONE, SECOND, epoch, 0, Ping(true));
    assert ProcessHeader(Candidate(0, 0, 0, false), m) == Candidate(epoch, 0, 0, false);
    assert OnPing(SECOND, Candidate(epoch, 0, 0, false), m) == Candidate(epoch, 0, 0, false);
  }

  // ---------------------------------------------------------------- the run, move by move

  /** The run leads from the start to `s`, with views and electorate in agreement throughout. */
  ghost predicate At(run: seq<Event>, s: State) {
    Runs(NODE_TIMEOUT, Start(), run, s) && Agreed(Voters, NODE_TIMEOUT, Start(), run)
  }

  lemma {:induction false} RunsAppend(s0: State, run: seq<Event>, s: State, e: Event)
    requires Runs(NODE_TIMEOUT, s0, run, s) && Agreed(Voters, NODE_TIMEOUT, s0, run)
    requires Enabled(s, e) && AgreedAt(Voters, s, e)
    ensures Runs(NODE_TIMEOUT, s0, run + [e], Step(NODE_TIMEOUT, s, e)) && Agreed(Voters, NODE_TIMEOUT, s0, run + [e])
    decreases |run|
  {
    hide Step, Enabled, AgreedAt;
    if run == [] {
      assert (run + [e])[1..] == [];
    } else {
      RunsAppend(Step(NODE_TIMEOUT, s0, run[0]), run[1..], s, e);
      assert (run + [e])[1..] == run[1..] + [e];
    }
  }

  lemma Continue(run: seq<Event>, s: State, e: Event) returns (run': seq<Event>, t: State)
    requires At(run, s) && Enabled(s, e) && AgreedAt(Voters, s, e)
    ensures t == Step(NODE_TIMEOUT, s, e) && At(run', t)
  {
    hide Step, Enabled, Start, AgreedAt;
    run', t := run + [e], Step(NODE_TIMEOUT, s, e);
    RunsAppend(Start(), run, s, e);
  }

  lemma AtStart()
    ensures At([], Start()) && Init(Start())
    ensures var s := Start();
            && s.nodes.Keys == {ONE, TWO, FIRST, SECOND} && s.nodes[ONE] == s.nodes[TWO] == Voter(0, 0, 0)
            && s.nodes[FIRST] == s.nodes[SECOND] == Candidate(0, 0, 0, false)
  {
  }

  lemma Schedules(run: seq<Event>, s: State, id: NodeId, epoch: nat, authEpoch: nat, sent: bool)
    returns (run': seq<Event>, t: State)
    requires At(run, s) && IsSlave(id) && id in s.nodes && s.nodes[id] == Candidate(epoch, authEpoch, 0, sent)
    ensures At(run', t) && t.nodes == s.nodes[id := Candidate(epoch, authEpoch, 0, false)]
    ensures t.net == s.net && t.hist.wins == s.hist.wins
  {
    hide Candidate, Act, CanAct, At;
    CandidateSchedules(id, epoch, authEpoch, sent, s.hist);
    run', t := Continue(run, s, Local(id, Schedule(false)));
  }

  lemma Asks(run: seq<Event>, s: State, id: NodeId, epoch: nat, authEpoch: nat, count: nat)
    returns (run': seq<Event>, t: State)
    requires At(run, s) && IsSlave(id) && id in s.nodes && s.nodes[id] == Candidate(epoch, authEpoch, count, false)
    ensures At(run', t) && t.nodes == s.nodes[id := Candidate(epoch + 1, epoch + 1, count, true)] && t.hist == s.hist
    ensures Request(id, ONE, epoch + 1) in t.net && Request(id, TWO, epoch + 1) in t.net
  {
    hide Candidate, Act, CanAct, At;
    CandidateAsks(id, epoch, authEpoch, count, s.hist);
    run', t := Continue(run, s, Local(id, RequestVotes(false, false)));
  }

  lemma Grants(run: seq<Event>, s: State, me: NodeId, to: NodeId, epoch: nat, votedTime: int)
    returns (run': seq<Event>, t: State)
    requires At(run, s) && IsVoter(me) && IsSlave(to) && epoch > 0 && me in s.nodes
    requires s.nodes[me] == Voter(epoch - 1, epoch - 1, votedTime) && Request(to, me, epoch) in s.net
    ensures At(run', t) && t.nodes == s.nodes[me := Voter(epoch, epoch, votedTime + 20)] && t.hist.wins == s.hist.wins
    ensures Ack(me, to, epoch) in t.net && forall m :: m in s.net && m != Request(to, me, epoch) ==> m in t.net
  {
    hide Voter, Process, At;
    VoterGrants(me, to, epoch, epoch - 1, votedTime, epoch - 1, s.hist);
    run', t := Continue(run, s, Deliver(Request(to, me, epoch), votedTime + 20));
  }

  lemma Counts(run: seq<Event>, s: State, id: NodeId, from: NodeId, epoch: nat, count: nat, sent: bool)
    returns (run': seq<Event>, t: State)
    requires At(run, s) && IsSlave(id) && IsVoter(from) && id in s.nodes
    requires s.nodes[id] == Candidate(epoch, epoch, count, sent) && Ack(from, id, epoch) in s.net
    ensures At(run', t) && t.nodes == s.nodes[id := Candidate(epoch, epoch, count + 1, sent)]
    ensures t.hist.wins == s.hist.wins && forall m :: m in s.net && m != Ack(from, id, epoch) ==> m in t.net
  {
    hide Candidate, Process, At;
    CandidateCounts(id, from, epoch, count, sent, s.hist);
    run', t := Continue(run, s, Deliver(Ack(from, id, epoch), 0));
  }

  lemma Wins(run: seq<Event>, s: State, id: NodeId, epoch: nat) returns (run': seq<Event>, t: State, w: Win)
    requires At(run, s) && IsSlave(id) && id in s.nodes && s.nodes[id] == Candidate(epoch, epoch, 2, true)
    ensures At(run', t) && t.nodes.Keys == s.nodes.Keys && (forall k :: k in s.nodes && k != id ==> t.nodes[k] == s.nodes[k])
    ensures w in t.hist.wins && s.hist.wins <= t.hist.wins && w.epoch == epoch && w.candidate == id
  {
    hide Candidate, Act, CanAct, At;
    CandidateWins(id, epoch, s.hist);
    CandidateKnowsAll(epoch);
    w := Win(epoch, id, Tally(s.hist, id), Stale(s.hist, id), 3);
    run', t := Continue(run, s, Local(id, WinElection(false)));
  }

  lemma CandidateKnowsAll(epoch: nat)
    ensures Candidate(epoch, epoch, 2, true).authEpoch == epoch && Voters(epoch) <= Serving(Candidate(epoch, epoch, 2, true))
  {
    ThreeServe(Candidate(epoch, epoch, 2, true), 0);
  }

  lemma HearsEpoch(run: seq<Event>, s: State, epoch: nat, votedTime: int) returns (run': seq<Event>, t: State)
    requires At(run, s) && SECOND in s.nodes && s.nodes[SECOND] == Candidate(0, 0, 0, false)
    requires ONE in s.nodes && s.nodes[ONE] == Voter(epoch, epoch, votedTime)
    ensures At(run', t) && t.nodes == s.nodes[SECOND := Candidate(epoch, 0, 0, false)] && t.hist == s.hist
  {
    hide Candidate, Voter, Act, CanAct, Process, At;
    VoterPings(epoch, votedTime, s.hist);
    CandidateHears(epoch, s.hist);
    var ping := Msg(ONE, SECOND, epoch, 0, Ping(true));
    var u: State;
    run', u := Continue(run, s, Local(ONE, Heartbeat(SECOND)));
    assert u.nodes == s.nodes && ping in u.net;
    run', t := Continue(run', u, Deliver(ping, 0));
  }

  /** Both live masters vote for FIRST in epoch 1; their acknowledgements are under way. */
  lemma BothVote() returns (run: seq<Event>, s: State)
    ensures At(run, s) && s.nodes.Keys == {ONE, TWO, FIRST, SECOND} && s.nodes[SECOND] == Candidate(0, 0, 0, false)
    ensures s.nodes[ONE] == s.nodes[TWO] == Voter(1, 1, 20) && s.nodes[FIRST] == Candidate(1, 1, 0, true)
    ensures Ack(ONE, FIRST, 1) in s.net && Ack(TWO, FIRST, 1) in s.net
  {
    hide At, Candidate, Voter, Start, Request, Ack;
    DifferentMessages();
    AtStart();
    run, s := [], Start();
    run, s := Schedules(run, s, FIRST, 0, 0, false);
    run, s := Asks(run, s, FIRST, 0, 0, 0);
    run, s := Grants(run, s, ONE, FIRST, 1, 0);
    run, s := Grants(run, s, TWO, FIRST, 1, 0);
  }

  /** FIRST gives up before the acknowledgements arrive; these are then counted, and elect it in epoch 2 with nobody's
      vote. */
  lemma StaleVotesElect() returns (run: seq<Event>, s: State, w: Win)
    ensures At(run, s) && s.nodes.Keys == {ONE, TWO, FIRST, SECOND} && s.nodes[SECOND] == Candidate(0, 0, 0, false)
    ensures s.nodes[ONE] == s.nodes[TWO] == Voter(1, 1, 20)
    ensures w in s.hist.wins && w.epoch == 2 && w.candidate == FIRST
  {
    hide At, Candidate, Voter, Start, Request, Ack;
    DifferentMessages();
    run, s := BothVote();
    run, s := Schedules(run, s, FIRST, 1, 1, true);
    run, s := Counts(run, s, FIRST, ONE, 1, 0, false);
    run, s := Counts(run, s, FIRST, TWO, 1, 1, false);
    run, s := Asks(run, s, FIRST, 1, 1, 2);
    run, s, w := Wins(run, s, FIRST, 2);
  }

  lemma DifferentMessages()
    ensures Request(FIRST, ONE, 1) != Request(FIRST, TWO, 1) && Request(SECOND, ONE, 2) != Request(SECOND, TWO, 2)
    ensures Ack(ONE, FIRST, 1) != Request(FIRST, TWO, 1) && Ack(ONE, SECOND, 2) != Request(SECOND, TWO, 2)
    ensures Ack(ONE, FIRST, 1) != Ack(TWO, FIRST, 1) && Ack(ONE, SECOND, 2) != Ack(TWO, SECOND, 2)
  {
  }

  /** SECOND is then elected in epoch 2 by the votes of both live masters. */
  lemma SecondIsElected(run: seq<Event>, s: State) returns (run': seq<Event>, t: State, w: Win)
    requires At(run, s) && s.nodes.Keys == {ONE, TWO, FIRST, SECOND} && s.nodes[SECOND] == Candidate(0, 0, 0, false)
    requires s.nodes[ONE] == s.nodes[TWO] == Voter(1, 1, 20)
    ensures At(run', t) && s.hist.wins <= t.hist.wins
    ensures w in t.hist.wins && w.epoch == 2 && w.candidate == SECOND
  {
    hide At, Candidate, Voter, Request, Ack;
    DifferentMessages();
    run', t := HearsEpoch(run, s, 1, 20);
    run', t := Schedules(run', t, SECOND, 1, 0, false);
    run', t := Asks(run', t, SECOND, 1, 0, 0);
    run', t := Grants(run', t, ONE, SECOND, 2, 20);
    run', t := Grants(run', t, TWO, SECOND, 2, 20);
    run', t := Counts(run', t, SECOND, ONE, 2, 0, true);
    run', t := Counts(run', t, SECOND, TWO, 2, 1, true);
    run', t, w := Wins(run', t, SECOND, 2);
  }

  /** Without its hypothesis on the window election safety is false: this run, in which everybody agrees on the
      electorate, ends with two winners of epoch 2. */
  lemma TwoWinnersOfOneEpoch() returns (run: seq<Event>, s: State, w1: Win, w2: Win)
    ensures Init(Start()) && Runs(NODE_TIMEOUT, Start(), run, s) && Agreed(Voters, NODE_TIMEOUT, Start(), run)
    ensures w1 in s.hist.wins && w2 in s.hist.wins && w1.epoch == w2.epoch && w1.candidate != w2.candidate
  {
    hide Candidate, Voter, Start;
    AtStart();
    run, s, w1 := StaleVotesElect();
    run, s, w2 := SecondIsElected(run, s);
  }
}
