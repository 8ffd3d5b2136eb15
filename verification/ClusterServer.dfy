/** One cluster node's handlers as the server runs them: fields updated in place, loops over the slot
    bitmap and the nodes table. Each is proved to do what the protocol's functions say. */
module ClusterServer {
  import opened Base
  import opened ClusterElection

  datatype Phase = Retry | NotNow | Due

  datatype Attempt = Nothing | Scheduled | Requested(requests: multiset<Msg>) | Won

  class Server {
    const me: NodeId
    var currentEpoch: nat
    var lastVoteEpoch: nat
    var failoverAuthEpoch: nat
    var failoverAuthCount: nat
    var failoverAuthSent: bool
    var failoverAuthTime: int
    var failoverAuthRank: nat
    var replOffsets: map<NodeId, int>  // the replication offset each slave announced
    var peers: map<NodeId, Peer>
    var slots: map<nat, NodeId>

    function View(): (n: Node)
      reads this
    {
      Node(currentEpoch, lastVoteEpoch, failoverAuthEpoch, failoverAuthCount, failoverAuthSent, peers, slots)
    }

    ghost predicate Valid()
      reads this
    {
      me in peers && forall j :: j in slots ==> j < CLUSTER_SLOTS
    }

    constructor (id: NodeId)
      ensures me == id && FreshNode(View()) && Valid()
    {
      me := id;
      currentEpoch, lastVoteEpoch, failoverAuthEpoch, failoverAuthCount := 0, 0, 0, 0;
      peers := map[id := Peer(0, true, None, false, 0)];
      slots := map[];
      failoverAuthTime, failoverAuthRank := 0, 0;
      replOffsets := map[];
    }

    method ProcessHeaderOf(m: Msg)
      modifies this
      ensures View() == ProcessHeader(old(View()), m)
      // nothing but the two epochs, which never go back; a stranger's packet teaches nothing
      ensures View() == old(View()).(currentEpoch := currentEpoch, peers := peers) && peers.Keys == old(peers).Keys
      ensures currentEpoch == if m.src in old(peers) then Max(old(currentEpoch), m.currentEpoch) else old(currentEpoch)
      ensures forall id :: id in peers && id != m.src ==> peers[id] == old(peers)[id]
      ensures m.src in peers ==> peers[m.src] == old(peers)[m.src].(
                configEpoch := Max(old(peers)[m.src].configEpoch, m.configEpoch))
    {
      if m.src in peers {
        if m.currentEpoch > currentEpoch {
          currentEpoch := m.currentEpoch;
        }
        if m.configEpoch > peers[m.src].configEpoch {
          peers := peers[m.src := peers[m.src].(configEpoch := m.configEpoch)];
        }
      }
    }

    /** The AUTH_ACK branch of clusterProcessPacket: a vote of a master that serves slots, for this election or later. */
    method CountVote(m: Msg) returns (counted: bool)
      modifies this`failoverAuthCount
      ensures counted <==> CountsAck(old(View()), m)
      ensures counted <==> && m.src in peers && peers[m.src].isMaster && m.src in slots.Values
                           && m.currentEpoch >= failoverAuthEpoch
      ensures failoverAuthCount == old(failoverAuthCount) + if counted then 1 else 0
    {
      counted := m.src in peers && peers[m.src].isMaster && m.src in slots.Values && m.currentEpoch >= failoverAuthEpoch;
      if counted {
        failoverAuthCount := failoverAuthCount + 1;
      }
    }

    /** The UPDATE branch of clusterProcessPacket up to the slots: a newer config epoch of a known node is learned, and
        the node is a master. */
    method ProcessUpdate(m: Msg)
      requires m.body.Update?
      modifies this`peers
      ensures View() == LearnEpoch(old(View()), m)
      ensures peers.Keys == old(peers).Keys && forall id :: id in peers && id != m.body.about ==> peers[id] == old(peers)[id]
      ensures m.body.about in peers ==>
              var p, q := old(peers)[m.body.about], peers[m.body.about];
              if m.src in peers && m.body.epoch > p.configEpoch
              then q.configEpoch == m.body.epoch && q.isMaster && (!p.isMaster ==> q.slaveof.None?)
              else q == p
    {
      var id := m.body.about;
      if m.src !in peers || id !in peers || peers[id].configEpoch >= m.body.epoch {
        return;
      }
      if !peers[id].isMaster {
        peers := peers[id := peers[id].(isMaster := true, slaveof := None)];
      }
      peers := peers[id := peers[id].(configEpoch := m.body.epoch)];
    }

    /** The slot loop of clusterSendFailoverAuthIfNeeded. */
    method SlotsAllowVote(claimed: set<nat>, requestConfigEpoch: nat) returns (ok: bool)
      requires forall j :: j in claimed ==> j < CLUSTER_SLOTS
      ensures ok <==> ClaimIsCurrent(View(), claimed, requestConfigEpoch)
      ensures ok <==> !exists j :: && j in claimed && j in slots && slots[j] in peers
                                   && peers[slots[j]].configEpoch > requestConfigEpoch
    {
      for j := 0 to CLUSTER_SLOTS
        invariant forall k :: 0 <= k < j && k in claimed && k in slots && slots[k] in peers
                              ==> peers[slots[k]].configEpoch <= requestConfigEpoch
      {
        if j !in claimed || j !in slots || slots[j] !in peers || peers[slots[j]].configEpoch <= requestConfigEpoch {
          continue;
        }
        return false;
      }
      return true;
    }

    method SendFailoverAuthIfNeeded(request: Msg, now: int, nodeTimeout: int) returns (ack: Option<Msg>)
      requires request.body.AuthRequest? && request.src in peers && me in peers
      requires forall j :: j in request.body.claimed ==> j < CLUSTER_SLOTS
      modifies this
      ensures ack.Some? <==> GrantsVote(me, old(View()), request, now, nodeTimeout)
      ensures ack.Some? ==> && ack.value == Packet(me, old(View()), request.src, AuthAck)
                            && View() == RecordVote(old(View()), old(peers)[request.src].slaveof.value, now)
      ensures ack.None? ==> View() == old(View())
      // who gets the vote: a slave of a failed master, from a master that serves slots, once in an epoch and for one
      // master once in two timeouts, unless it claims a slot that has moved on
      ensures ack.Some? <==>
              && old(peers)[me].isMaster && me in old(slots).Values
              && request.currentEpoch >= old(currentEpoch) && old(lastVoteEpoch) != old(currentEpoch)
              && !old(peers)[request.src].isMaster && old(peers)[request.src].slaveof.Some?
              && var master := old(peers)[request.src].slaveof.value;
              && master in old(peers) && (old(peers)[master].failed || request.body.forceAck)
              && now - old(peers)[master].votedTime >= 2 * nodeTimeout
              && forall j :: j in request.body.claimed && j in old(slots) && old(slots)[j] in old(peers)
                             ==> old(peers)[old(slots)[j]].configEpoch <= request.configEpoch
      // the vote is remembered twice, and sent under this node's own epochs
      ensures ack.Some? ==>
              && ack.value == Msg(me, request.src, currentEpoch, old(peers)[me].configEpoch, AuthAck)
              && var master := old(peers)[request.src].slaveof.value;
              && lastVoteEpoch == currentEpoch
              && peers == old(peers)[master := old(peers)[master].(votedTime := now)]
              && View() == old(View()).(lastVoteEpoch := lastVoteEpoch, peers := peers)
    {
      var node := peers[request.src];
      if !peers[me].isMaster || me !in slots.Values {
        return None;
      }
      if request.currentEpoch < currentEpoch || lastVoteEpoch == currentEpoch {
        return None;
      }
      if node.isMaster || node.slaveof.None? || node.slaveof.value !in peers {
        return None;
      }
      var master := peers[node.slaveof.value];
      if !master.failed && !request.body.forceAck {
        return None;
      }
      if now - master.votedTime < nodeTimeout * 2 {
        return None;
      }
      var ok := SlotsAllowVote(request.body.claimed, request.configEpoch);
      if !ok {
        return None;
      }
      ack := Some(Packet(me, View(), request.src, AuthAck));
      lastVoteEpoch := currentEpoch;
      peers := peers[node.slaveof.value := master.(votedTime := now)];
    }

    /** clusterGetMaxEpoch: a scan of the nodes table. */
    method GetMaxEpoch() returns (max: nat)
      ensures currentEpoch <= max && forall id :: id in peers ==> peers[id].configEpoch <= max
      ensures max == currentEpoch || exists id :: id in peers && peers[id].configEpoch == max
    {
      max := 0;
      var todo := peers.Keys;
      while todo != {}
        invariant todo <= peers.Keys
        invariant forall id :: id in peers && id !in todo ==> peers[id].configEpoch <= max
        invariant max == 0 || exists id :: id in peers && peers[id].configEpoch == max
        decreases todo
      {
        var id :| id in todo;
        if peers[id].configEpoch > max {
          max := peers[id].configEpoch;
        }
        todo := todo - {id};
      }
      if max < currentEpoch {
        max := currentEpoch;
      }
    }

    method BumpConfigEpochWithoutConsensus() returns (bumped: bool)
      requires me in peers
      modifies this
      ensures View() == Bump(me, old(View()))
      ensures bumped <==> View() != old(View())
      // a node that already holds the greatest epoch it knows keeps it
      ensures bumped <==> || old(peers)[me].configEpoch == 0 || old(currentEpoch) > old(peers)[me].configEpoch
                          || exists id :: id in old(peers) && old(peers)[id].configEpoch > old(peers)[me].configEpoch
      ensures bumped ==> && currentEpoch == old(currentEpoch) + 1
                         && peers == old(peers)[me := old(peers)[me].(configEpoch := currentEpoch)]
                         && View() == old(View()).(currentEpoch := currentEpoch, peers := peers)
    {
      var maxEpoch := GetMaxEpoch();
      bumped := peers[me].configEpoch == 0 || peers[me].configEpoch != maxEpoch;
      if bumped {
        currentEpoch := currentEpoch + 1;
        peers := peers[me := peers[me].(configEpoch := currentEpoch)];
      }
    }

    method HandleConfigEpochCollision(m: Msg)
      requires me in peers && m.src in peers
      modifies this
      ensures View() == ResolveCollision(me, old(View()), m)
      // two masters under one epoch: the one with the smaller name moves on
      ensures View() != old(View()) <==>
              && old(peers)[me].isMaster && old(peers)[m.src].isMaster && me < m.src
              && old(peers)[me].configEpoch == m.configEpoch == old(peers)[m.src].configEpoch
      ensures View() != old(View()) ==>
              && currentEpoch == old(currentEpoch) + 1
              && peers == old(peers)[me := old(peers)[me].(configEpoch := currentEpoch)]
              && View() == old(View()).(currentEpoch := currentEpoch, peers := peers)
    {
      if !peers[me].isMaster || !peers[m.src].isMaster || m.configEpoch != peers[me].configEpoch {
        return;
      }
      if peers[m.src].configEpoch != peers[me].configEpoch || m.src <= me {
        return;
      }
      currentEpoch := currentEpoch + 1;
      peers := peers[me := peers[me].(configEpoch := currentEpoch)];
    }

    /** server.cluster->size as clusterUpdateState counts it. */
    method ClusterSize() returns (size: nat)
      ensures size == |Serving(View())|
    {
      size := 0;
      var todo := peers.Keys;
      ghost var counted: set<NodeId> := {};
      while todo != {}
        invariant todo <= peers.Keys && size == |counted|
        invariant counted == set id | id in Serving(View()) && id !in todo
        decreases todo
      {
        var id :| id in todo;
        todo := todo - {id};
        if peers[id].isMaster && id in slots.Values {
          size := size + 1;
          counted := counted + {id};
        }
      }
      assert counted == Serving(View());
    }

    /** The other slaves of this slave's master that announced more data. */
    ghost function Ahead(master: NodeId, myOffset: int): set<NodeId>
      reads this
    {
      set id | id in peers && id in replOffsets && id != me && peers[id].slaveof == Some(master) && replOffsets[id] > myOffset
    }

    /** clusterGetSlaveRank. */
    method GetSlaveRank(master: NodeId, myOffset: int) returns (rank: nat)
      ensures rank == |Ahead(master, myOffset)|
      ensures rank == 0 <==> forall id :: id in peers && id in replOffsets && id != me && peers[id].slaveof == Some(master)
                                          ==> replOffsets[id] <= myOffset
    {
      rank := 0;
      var todo := peers.Keys;
      ghost var counted: set<NodeId> := {};
      while todo != {}
        invariant todo <= peers.Keys && rank == |counted|
        invariant counted == set id | id in Ahead(master, myOffset) && id !in todo
        decreases todo
      {
        var id :| id in todo;
        todo := todo - {id};
        if id in replOffsets && id != me && peers[id].slaveof == Some(master) && replOffsets[id] > myOffset {
          rank := rank + 1;
          counted := counted + {id};
        }
      }
      assert counted == Ahead(master, myOffset);
      assert forall id :: id in counted <==> && id in peers && id in replOffsets && id != me
                                             && peers[id].slaveof == Some(master) && replOffsets[id] > myOffset;
    }

    /** The rank of this slave, 0 for a node that has no master. */
    ghost function Rank(myOffset: int): nat
      requires me in peers
      reads this
    {
      if peers[me].slaveof.Some? then |Ahead(peers[me].slaveof.value, myOffset)| else 0
    }

    /** clusterFailoverReplaceYourMaster. */
    method ReplaceYourMaster()
      requires Valid()
      modifies this`peers, this`slots
      ensures Valid()
      ensures old(peers)[me].isMaster || old(peers)[me].slaveof.None? ==> View() == old(View())
      ensures !old(peers)[me].isMaster && old(peers)[me].slaveof.Some? ==>
              && TakesSlots(me, old(peers)[me].slaveof.value, old(slots), slots)
              && peers == old(peers)[me := old(peers)[me].(isMaster := true, slaveof := None)]
    {
      if peers[me].isMaster || peers[me].slaveof.None? {
        return;
      }
      var oldMaster := peers[me].slaveof.value;
      peers := peers[me := peers[me].(isMaster := true, slaveof := None)];
      for j := 0 to CLUSTER_SLOTS
        invariant slots.Keys == old(slots).Keys
        invariant peers == old(peers)[me := old(peers)[me].(isMaster := true, slaveof := None)]
        invariant forall k :: k in slots ==> slots[k] == if k < j && old(slots)[k] == oldMaster then me else old(slots)[k]
      {
        if j in slots && slots[j] == oldMaster {
          slots := slots[j := me];
        }
      }
    }

    method MeetsPreconditions(manual: bool) returns (ok: bool)
      requires Valid()
      ensures ok <==> MayFailOver(me, View(), manual)
      ensures ok <==> && !peers[me].isMaster && peers[me].slaveof.Some? && peers[me].slaveof.value in peers
                      && (peers[peers[me].slaveof.value].failed || manual)
                      && exists j :: j in slots && slots[j] == peers[me].slaveof.value
    {
      return !peers[me].isMaster && peers[me].slaveof.Some? && peers[me].slaveof.value in peers
             && (peers[peers[me].slaveof.value].failed || manual) && peers[me].slaveof.value in slots.Values;
    }

    /** The new attempt that clusterHandleSlaveFailover sets up. */
    method SetUpElection(now: int, delay: nat, rank: nat, mfEnd: int)
      modifies this`failoverAuthTime, this`failoverAuthRank, this`failoverAuthCount, this`failoverAuthSent
      ensures View() == ScheduleElection(old(View()))
      ensures mfEnd == 0 ==> failoverAuthRank == rank && failoverAuthTime == now + 500 + delay % 500 + rank * 1000
      ensures mfEnd != 0 ==> failoverAuthTime == now && failoverAuthRank == 0
    {
      failoverAuthTime := now + 500 + delay % 500;
      failoverAuthCount := 0;
      failoverAuthSent := false;
      failoverAuthRank := rank;
      failoverAuthTime := failoverAuthTime + failoverAuthRank * 1000;
      if mfEnd != 0 {
        failoverAuthTime := now;
        failoverAuthRank := 0;
      }
    }

    /** The timers of clusterHandleSlaveFailover: the age of the attempt is taken before its time may move. */
    method ElectionPhase(now: int, nodeTimeout: nat, delay: nat, rank: nat, mfEnd: int) returns (phase: Phase)
      modifies this`failoverAuthTime, this`failoverAuthRank, this`failoverAuthCount, this`failoverAuthSent
      ensures phase.Retry? <==> now - old(failoverAuthTime) > 2 * AuthTimeout(nodeTimeout)
      ensures phase.Due? <==> now - old(failoverAuthTime) <= AuthTimeout(nodeTimeout) && now >= failoverAuthTime
      ensures View() == if phase.Retry? then ScheduleElection(old(View())) else old(View())
      ensures phase.Retry? && mfEnd == 0 ==> && failoverAuthRank == rank
                                             && failoverAuthTime == now + 500 + delay % 500 + rank * 1000
      ensures phase.Retry? && mfEnd != 0 ==> failoverAuthTime == now && failoverAuthRank == 0
      ensures !phase.Retry? ==> && failoverAuthRank == (if !old(failoverAuthSent) && mfEnd == 0 then Max(rank, old(failoverAuthRank))
                                                        else old(failoverAuthRank))
                                && failoverAuthTime == old(failoverAuthTime) + (failoverAuthRank - old(failoverAuthRank)) * 1000
    {
      var authAge := now - failoverAuthTime;
      var authTimeout := nodeTimeout * 2;
      if authTimeout < 2000 {
        authTimeout := 2000;
      }
      if authAge > authTimeout * 2 {
        SetUpElection(now, delay, rank, mfEnd);
        return Retry;
      }
      if !failoverAuthSent && mfEnd == 0 && rank > failoverAuthRank {
        failoverAuthTime := failoverAuthTime + (rank - failoverAuthRank) * 1000;
        failoverAuthRank := rank;
      }
      return if now < failoverAuthTime || authAge > authTimeout then NotNow else Due;
    }

    /** clusterRequestFailoverAuth, in a new epoch. */
    method AskForVotes(force: bool) returns (requests: multiset<Msg>)
      requires Valid()
      modifies this`currentEpoch, this`failoverAuthEpoch, this`failoverAuthSent
      ensures View() == StartElection(old(View())) && Valid() && requests == Requests(me, View(), force)
      ensures currentEpoch == failoverAuthEpoch == old(currentEpoch) + 1 && failoverAuthSent
    {
      currentEpoch := currentEpoch + 1;
      failoverAuthEpoch := currentEpoch;
      failoverAuthSent := true;
      requests := Requests(me, View(), force);
    }

    /** The config epoch won in the election, then the master's role and slots. */
    method TakeOver()
      requires Valid() && !peers[me].isMaster && peers[me].slaveof.Some?
      modifies this`peers, this`slots
      ensures Valid() && TakesOver(me, old(View()), View())
    {
      if peers[me].configEpoch < failoverAuthEpoch {
        peers := peers[me := peers[me].(configEpoch := failoverAuthEpoch)];
      }
      ReplaceYourMaster();
    }

    /** The end of clusterHandleSlaveFailover: ask for votes, or count them. */
    method Proceed(force: bool) returns (what: Attempt)
      requires Valid() && !peers[me].isMaster && peers[me].slaveof.Some? && peers[me].slaveof.value in peers
      modifies this`currentEpoch, this`failoverAuthEpoch, this`failoverAuthSent, this`peers, this`slots
      ensures Valid() && !what.Scheduled?
      ensures what.Requested? <==> !old(failoverAuthSent)
      ensures what.Won? <==> old(failoverAuthSent) && failoverAuthCount >= |Serving(old(View()))| / 2 + 1
      ensures what.Nothing? ==> View() == old(View())
      ensures what.Requested? ==> View() == StartElection(old(View())) && what.requests == Requests(me, View(), force)
      ensures what.Requested? ==> OpensElection(me, old(View()), View(), what.requests, force)
      ensures what.Won? ==> View() == TakeElectionEpoch(me, old(View())) && TakesOver(me, old(View()), View())
    {
      var size := ClusterSize();
      var neededQuorum := size / 2 + 1;
      if !failoverAuthSent {
        var requests := AskForVotes(force);
        RequestsReachEveryone(me, View(), force);
        return Requested(requests);
      }
      if failoverAuthCount < neededQuorum {
        return Nothing;
      }
      TakeOver();
      WinTakesOver(me, old(View()), View());
      return Won;
    }

    /** The election of a slave that may fail over: the timers, then the votes. */
    method RunElection(now: int, nodeTimeout: nat, delay: nat, rank: nat, mfEnd: int) returns (what: Attempt)
      requires Valid() && !peers[me].isMaster && peers[me].slaveof.Some? && peers[me].slaveof.value in peers
      modifies this
      ensures Valid()
      ensures what.Scheduled? <==> now - old(failoverAuthTime) > 2 * AuthTimeout(nodeTimeout)
      ensures what.Requested? <==> && now - old(failoverAuthTime) <= AuthTimeout(nodeTimeout) && now >= failoverAuthTime
                                   && !old(failoverAuthSent)
      ensures what.Won? <==> && now - old(failoverAuthTime) <= AuthTimeout(nodeTimeout) && now >= failoverAuthTime
                             && old(failoverAuthSent) && old(failoverAuthCount) >= |Serving(old(View()))| / 2 + 1
      ensures what.Nothing? ==> View() == old(View())
      ensures what.Scheduled? ==> View() == ScheduleElection(old(View())) == old(View()).(authCount := 0, authSent := false)
      ensures what.Requested? ==> && View() == StartElection(old(View())) && what.requests == Requests(me, View(), mfEnd != 0)
                                  && OpensElection(me, old(View()), View(), what.requests, mfEnd != 0)
      ensures what.Won? ==> View() == TakeElectionEpoch(me, old(View())) && TakesOver(me, old(View()), View())
      ensures what.Scheduled? && mfEnd == 0 ==> && failoverAuthRank == rank
                                                && failoverAuthTime == now + 500 + delay % 500 + failoverAuthRank * 1000
      ensures what.Scheduled? && mfEnd != 0 ==> failoverAuthTime == now && failoverAuthRank == 0
      ensures !what.Scheduled? ==> && failoverAuthTime == old(failoverAuthTime) + (failoverAuthRank - old(failoverAuthRank)) * 1000
                                   && failoverAuthRank >= old(failoverAuthRank)
      ensures what.Requested? && mfEnd == 0 ==> failoverAuthRank >= rank
    {
      hide TakeElectionEpoch, StartElection, Requests, Serving, AuthTimeout, TakesOver, OpensElection;
      var phase := ElectionPhase(now, nodeTimeout, delay, rank, mfEnd);
      if phase.Retry? {
        return Scheduled;
      }
      if phase.NotNow? {
        return Nothing;
      }
      what := Proceed(mfEnd != 0);
    }

    /** clusterHandleSlaveFailover at time `now`; `dataTooOld` is the outcome of its test on the data's age. The
        server's clock, its random delay and the manual failover's fields are parameters. */
    method HandleSlaveFailover(now: int, nodeTimeout: nat, dataTooOld: bool, delay: nat, myOffset: int,
                               mfEnd: int, mfCanStart: bool) returns (what: Attempt)
      requires Valid()
      modifies this
      ensures Valid() && me in old(peers)
      // who gets anywhere, and when
      ensures what.Scheduled? <==> Fit(me, old(View()), dataTooOld, mfEnd, mfCanStart)
                                   && now - old(failoverAuthTime) > 2 * AuthTimeout(nodeTimeout)
      ensures what.Requested? <==> Open(me, old(View()), dataTooOld, mfEnd, mfCanStart, now, nodeTimeout, old(failoverAuthTime))
                                   && now >= failoverAuthTime && !old(failoverAuthSent)
      ensures what.Won? <==> Open(me, old(View()), dataTooOld, mfEnd, mfCanStart, now, nodeTimeout, old(failoverAuthTime))
                             && now >= failoverAuthTime && old(failoverAuthSent)
                             && old(failoverAuthCount) >= |Serving(old(View()))| / 2 + 1
      // what it does: the protocol's own actions
      ensures what.Nothing? ==> View() == old(View())
      ensures what.Scheduled? ==> CanAct(me, old(View()), Schedule(Manual(mfEnd, mfCanStart)))
                                  && View() == ScheduleElection(old(View()))
      ensures what.Requested? ==> && CanAct(me, old(View()), RequestVotes(Manual(mfEnd, mfCanStart), mfEnd != 0))
                                  && View() == StartElection(old(View()))
                                  && what.requests == Requests(me, View(), mfEnd != 0)
      ensures what.Won? ==> && CanAct(me, old(View()), WinElection(Manual(mfEnd, mfCanStart)))
                            && View() == TakeElectionEpoch(me, old(View()))
      // and what these come to
      ensures what.Scheduled? ==> View() == old(View()).(authCount := 0, authSent := false)
      ensures what.Requested? ==> OpensElection(me, old(View()), View(), what.requests, mfEnd != 0)
      ensures what.Won? ==> TakesOver(me, old(View()), View())
      // the delay: half a second, the random part and a second for each slave that is ahead
      ensures what.Scheduled? && mfEnd == 0 ==> && failoverAuthRank == old(Rank(myOffset))
                                                && failoverAuthTime == now + 500 + delay % 500 + failoverAuthRank * 1000
      ensures what.Scheduled? && mfEnd != 0 ==> failoverAuthTime == now && failoverAuthRank == 0
      ensures !what.Scheduled? ==> && failoverAuthTime == old(failoverAuthTime) + (failoverAuthRank - old(failoverAuthRank)) * 1000
                                   && failoverAuthRank >= old(failoverAuthRank)
      ensures what.Requested? && mfEnd == 0 ==> failoverAuthRank >= old(Rank(myOffset))
    {
      hide MayFailOver, TakeElectionEpoch, StartElection, ScheduleElection, Requests, Serving, AuthTimeout, Ahead, TakesOver,
           OpensElection;
      var manual := mfEnd != 0 && mfCanStart;
      var fit := MeetsPreconditions(manual);
      if !fit || (dataTooOld && !manual) {
        return Nothing;
      }
      var rank := GetSlaveRank(peers[me].slaveof.value, myOffset);
      what := RunElection(now, nodeTimeout, delay, rank, mfEnd);
    }
  }

  /** The same slots are assigned; `me` owns its own and the old master's, the old master none, and no other owner
      changes. */
  ghost predicate TakesSlots(me: NodeId, oldMaster: NodeId, before: map<nat, NodeId>, after: map<nat, NodeId>) {
    && after.Keys == before.Keys
    && (forall j :: j in before ==> (after[j] == me <==> before[j] == me || before[j] == oldMaster))
    && (forall j :: j in before && before[j] != oldMaster ==> after[j] == before[j])
    && (me != oldMaster ==> oldMaster !in after.Values)
  }

  /** `me` has become a master without a master, under the greater of its own epoch and the election's, with its old
      master's slots. Nobody else's entry and none of the node's counters has changed. */
  ghost predicate TakesOver(me: NodeId, before: Node, after: Node)
    requires me in before.peers && before.peers[me].slaveof.Some?
  {
    && TakesSlots(me, before.peers[me].slaveof.value, before.slots, after.slots)
    && after.peers.Keys == before.peers.Keys
    && (forall id :: id in before.peers && id != me ==> after.peers[id] == before.peers[id])
    && after.peers[me].isMaster && after.peers[me].slaveof.None?
    && after.peers[me].configEpoch == Max(before.peers[me].configEpoch, before.authEpoch)
    && after.peers[me] == before.peers[me].(isMaster := true, slaveof := None, configEpoch := after.peers[me].configEpoch)
    && after == before.(slots := after.slots, peers := after.peers)
  }

  /** The protocol's win is this take-over and no other. */
  lemma WinTakesOver(me: NodeId, n: Node, n': Node)
    requires me in n.peers && !n.peers[me].isMaster && n.peers[me].slaveof.Some?
    ensures TakesOver(me, n, n') <==> n' == TakeElectionEpoch(me, n)
  {
    var won := TakeElectionEpoch(me, n);
    assert won.peers.Keys == n.peers.Keys;
    if TakesOver(me, n, n') {
      assert n'.slots == won.slots;
      assert n'.peers == won.peers;
    }
  }

  /** One request to every other known node and to nobody else, for the slots of `master`, under the epoch of the
      sender and the config epoch of its master. */
  ghost predicate AsksEveryone(me: NodeId, n: Node, master: NodeId, requests: multiset<Msg>, force: bool)
    requires master in n.peers
  {
    && (forall m :: m in requests ==> Asks(me, n, master, m, force) && requests[m] == 1)
    && (forall d :: d in n.peers && d != me ==> exists m :: m in requests && m.dst == d)
    && (forall m, m' :: m in requests && m' in requests && m.dst == m'.dst ==> m == m')
  }

  ghost predicate Asks(me: NodeId, n: Node, master: NodeId, m: Msg, force: bool)
    requires master in n.peers
  {
    && m.src == me && m.dst in n.peers && m.dst != me
    && m.currentEpoch == n.currentEpoch && m.configEpoch == n.peers[master].configEpoch
    && m.body.AuthRequest? && m.body.forceAck == force
    && forall j :: j in m.body.claimed <==> j in n.slots && n.slots[j] == master
  }

  lemma RequestsReachEveryone(me: NodeId, n: Node, force: bool)
    requires me in n.peers && !n.peers[me].isMaster
    requires n.peers[me].slaveof.Some? && n.peers[me].slaveof.value in n.peers
    ensures AsksEveryone(me, n, n.peers[me].slaveof.value, Requests(me, n, force), force)
  {
    var rs := Requests(me, n, force);
    forall d | d in n.peers && d != me
      ensures exists m :: m in rs && m.dst == d
    {
      assert Packet(me, n, d, AuthRequest(ClaimedSlots(me, n), force)) in rs;
    }
  }

  /** A new epoch is the election's, the requests are sent under it, and nothing else has changed. */
  ghost predicate OpensElection(me: NodeId, before: Node, after: Node, requests: multiset<Msg>, force: bool) {
    && me in before.peers && before.peers[me].slaveof.Some? && before.peers[me].slaveof.value in before.peers
    && after == before.(currentEpoch := before.currentEpoch + 1, authEpoch := before.currentEpoch + 1, authSent := true)
    && AsksEveryone(me, after, before.peers[me].slaveof.value, requests, force)
  }

  predicate Manual(mfEnd: int, mfCanStart: bool) {
    mfEnd != 0 && mfCanStart
  }

  /** Twice the node timeout, at least two seconds. */
  function AuthTimeout(nodeTimeout: nat): (ms: nat)
    ensures ms >= 2000 && ms >= 2 * nodeTimeout && (ms == 2000 || ms == 2 * nodeTimeout)
  {
    if nodeTimeout * 2 < 2000 then 2000 else nodeTimeout * 2
  }

  /** A slave whose master serves slots and is failing, with data that is recent enough; a manual failover that may
      start needs neither the failure nor the recent data. */
  predicate Fit(me: NodeId, n: Node, dataTooOld: bool, mfEnd: int, mfCanStart: bool) {
    && me in n.peers && !n.peers[me].isMaster && n.peers[me].slaveof.Some?
    && var master := n.peers[me].slaveof.value;
    && master in n.peers && (exists j :: j in n.slots && n.slots[j] == master)
    && ((n.peers[master].failed && !dataTooOld) || (mfEnd != 0 && mfCanStart))
  }

  /** The attempt set up for `authTime` has not expired. */
  predicate Open(me: NodeId, n: Node, dataTooOld: bool, mfEnd: int, mfCanStart: bool, now: int, nodeTimeout: nat, authTime: int) {
    Fit(me, n, dataTooOld, mfEnd, mfCanStart) && now - authTime <= AuthTimeout(nodeTimeout)
  }
}
