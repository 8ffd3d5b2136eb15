/** UfsRedis as a whole: clients that execute UNION and SPLIT at once and a server that orders, transforms and
    forwards them. The bookkeeping is in order over every run, whatever the operations: every operation finds the state
    it was executed at. */
module UfsSystem {
  import opened Base
  import opened UfsPartition
  import opened UfsGraph
  import opened UfsPrint
  import opened UfsValue
  import opened UfsSpace
  import opened UfsPair

  /** `clients[i]`: the space client i keeps; `graphs[i]`: the graph its queries read; `spaces[i]`: the space the
      server keeps for it. */
  datatype System = System(clients: map<NodeId, Space>, graphs: map<NodeId, Figure>, spaces: map<NodeId, Space>,
                           up: map<NodeId, seq<Msg>>, down: map<NodeId, seq<Msg>>)

  /** A client accepts an operation of its user, the server takes a client's next operation, a client takes the
      server's next. `adj` is the client's graph afterwards, `content` what it then prints. */
  datatype Event =
    | LocalOp(at: NodeId, op: Op, adj: Adj, content: Content)
    | ServerTakes(from: NodeId)
    | ClientTakes(at: NodeId, adj: Adj)

  ghost predicate WellKeyed(s: System) {
    && s.spaces.Keys == s.clients.Keys && s.up.Keys == s.clients.Keys && s.down.Keys == s.clients.Keys
    && s.graphs.Keys == s.clients.Keys
    && (forall i {:trigger s.clients[i]} :: i in s.clients ==> Shape(s.clients[i]))
    && (forall i {:trigger s.spaces[i]} :: i in s.spaces ==> Shape(s.spaces[i]))
    && (forall i {:trigger s.graphs[i]} :: i in s.graphs ==> |s.graphs[i].adj| == |s.graphs[i].data|)
  }

  /** The column of the last row at which the message's context puts it, if the walk ends there. */
  predicate Placed(b: Space, m: Msg, alongFirst: bool)
    requires Shape(b)
  {
    var at := Locate(b, m.ctx, 0, 0, alongFirst);
    at.Some? && at.value.1 == |b.rows| - 1 && Last(b).lo <= at.value.0 <= Hi(Last(b))
  }

  function Column(b: Space, m: Msg, alongFirst: bool): nat
    requires Shape(b) && Placed(b, m, alongFirst)
  {
    Locate(b, m.ctx, 0, 0, alongFirst).value.0
  }

  /** The operation as a client executes it on its graph. */
  function Executed(c: Space, m: Msg): Op
    requires Shape(c) && Placed(c, m, true)
  {
    Transformed(c, Column(c, m, true), m.op)
  }

  ghost predicate Enabled(s: System, e: Event) {
    && WellKeyed(s)
    && match e
       case LocalOp(at, op, adj, content) =>
         && at in s.clients && Accepts(Shown(s.graphs[at]), op) && Redraws(s.graphs[at], op, adj)
         && Prints(Figure(s.graphs[at].data, adj), content)
       case ServerTakes(from) => from in s.clients && s.up[from] != []
       case ClientTakes(at, adj) =>
         && at in s.clients && s.down[at] != []
         && var c, m := s.clients[at], s.down[at][0];
         && (Placed(c, m, true) ==> Redraws(s.graphs[at], Executed(c, m), adj))
  }

  function NextId(at: NodeId, c: Space): OpId {
    OpId(at, |c.alongIds| + 1)
  }

  function Forward(b: Space, op: Op, id: OpId, ctx: set<OpId>): Msg
    requires Shape(b)
  {
    Msg(op, id, ctx, |b.rows| - 1)
  }

  /** The server's part of controlAlg. An operation whose context is not found is dropped by the model; that
      never happens, see `ServerFindsContext`. */
  ghost function ServerStep(s: System, from: NodeId): System
    requires WellKeyed(s) && from in s.clients && s.up[from] != []
  {
    var m, b := s.up[from][0], s.spaces[from];
    var s1 := s.(up := s.up[from := s.up[from][1..]]);
    if !Placed(b, m, false) then s1
    else
      var x := Column(b, m, false);
      var op, ctx := Transformed(b, x, m.op), m.ctx + Ids(b.alongIds[Min(x, |b.alongIds|)..]);
      s1.(spaces := map j | j in s.spaces :: if j == from then Insert(b, x, m.op, m.id)
                                             else Extend(s.spaces[j], op, Update(Final(s.spaces[j]), op), m.id),
          down := map j | j in s.down :: if j == from then s.down[j]
                                         else s.down[j] + [Forward(s.spaces[j], op, m.id, ctx)])
  }

  ghost function Step(s: System, e: Event): System
    requires Enabled(s, e)
  {
    match e
    case LocalOp(at, op, adj, content) =>
      var c := s.clients[at];
      s.(clients := s.clients[at := Extend(c, op, content, NextId(at, c))],
         graphs := s.graphs[at := s.graphs[at].(adj := adj)],
         up := s.up[at := s.up[at] + [Outgoing(c, op, NextId(at, c))]])
    case ServerTakes(from) => ServerStep(s, from)
    case ClientTakes(at, adj) =>
      var m, c := s.down[at][0], s.clients[at];
      var s1 := s.(down := s.down[at := s.down[at][1..]]);
      if Placed(c, m, true) then
        s1.(clients := s.clients[at := Insert(c, Column(c, m, true), m.op, m.id)],
            graphs := s.graphs[at := s.graphs[at].(adj := adj)])
      else s1
  }

  ghost predicate Runs(s0: System, run: seq<Event>, s: System)
    decreases |run|
  {
    if run == [] then s == s0
    else Enabled(s0, run[0]) && Runs(Step(s0, run[0]), run[1..], s)
  }

  function FreshSpace(c: Content): Space {
    Space([Row(0, [c], [])], [], [], [])
  }

  ghost predicate FreshAt(s: System, i: NodeId)
    requires WellKeyed(s) && i in s.clients
  {
    && s.clients[i] == FreshSpace(Final(s.clients[i])) && s.spaces[i] == FreshSpace(Final(s.spaces[i]))
    && Graph(s.graphs[i].data, s.graphs[i].adj) && Prints(s.graphs[i], Final(s.clients[i])) && Prints(s.graphs[i], Final(s.spaces[i]))
    && s.up[i] == [] && s.down[i] == []
  }

  ghost predicate SameStart(s: System, i: NodeId, j: NodeId)
    requires WellKeyed(s) && i in s.clients && j in s.clients
  {
    s.graphs[i].data == s.graphs[j].data && Shown(s.graphs[i]) == Shown(s.graphs[j])
  }

  /** Every replica has the same value, printed it, and has executed no operation. */
  ghost predicate Init(s: System) {
    && WellKeyed(s)
    && (forall i {:trigger FreshAt(s, i)} :: i in s.clients ==> FreshAt(s, i))
    && (forall i, j {:trigger SameStart(s, i, j)} :: i in s.clients && j in s.clients ==> SameStart(s, i, j))
  }

  // ---------------------------------------------------------------- the bookkeeping, over every run

  /** Client `i`: its two spaces and channels are linked, its operations are numbered, and the operations the server
      has for it from elsewhere bear other clients' names. */
  ghost predicate ClientLinked(i: NodeId, c: Space, b: Space, u: seq<Msg>, d: seq<Msg>) {
    && Linked(c, b, u, d)
    && (forall k :: 0 <= k < |c.alongIds| ==> c.alongIds[k] == OpId(i, k + 1))
    && (forall x :: x in b.alongIds ==> x.client != i)
  }

  ghost predicate LinkedAt(s: System, i: NodeId)
    requires WellKeyed(s) && i in s.clients
  {
    ClientLinked(i, s.clients[i], s.spaces[i], s.up[i], s.down[i])
  }

  /** The server's spaces hold the same operations. */
  ghost predicate SameIds(s: System, i: NodeId, j: NodeId)
    requires WellKeyed(s) && i in s.clients && j in s.clients
  {
    AllIds(s.spaces[i]) == AllIds(s.spaces[j])
  }

  ghost predicate Links(s: System) {
    && WellKeyed(s)
    && (forall i {:trigger LinkedAt(s, i)} :: i in s.clients ==> LinkedAt(s, i))
    && (forall i, j {:trigger SameIds(s, i, j)} :: i in s.clients && j in s.clients ==> SameIds(s, i, j))
  }

  /** The server always finds the state a client's operation was executed at. */
  lemma ServerFindsContext(i: NodeId, c: Space, b: Space, u: seq<Msg>, d: seq<Msg>)
    requires ClientLinked(i, c, b, u, d) && u != []
    ensures Placed(b, u[0], false) && Column(b, u[0], false) == u[0].mark && u[0].mark <= |b.alongIds|
    ensures u[0].ctx + Ids(b.alongIds[u[0].mark..]) == AllIds(b)
  {
    ReceiverKnowsState(c, b, u, d, false);
  }

  /** And so does a client for what the server forwards. */
  lemma ClientFindsContext(i: NodeId, c: Space, b: Space, u: seq<Msg>, d: seq<Msg>)
    requires ClientLinked(i, c, b, u, d) && d != []
    ensures Placed(c, d[0], true) && Column(c, d[0], true) == d[0].mark
  {
    LinkIsSymmetric(c, b, u, d);
    ReceiverKnowsState(b, c, d, u, true);
  }

  lemma LocalKeepsClient(i: NodeId, c: Space, b: Space, u: seq<Msg>, d: seq<Msg>, op: Op, content: Content)
    requires ClientLinked(i, c, b, u, d)
    ensures ClientLinked(i, Extend(c, op, content, NextId(i, c)), b, u + [Outgoing(c, op, NextId(i, c))], d)
  {
    hide Linked;
    var id := NextId(i, c);
    LinkedShapes(c, b, u, d);
    forall m | 0 < m < id.num
      ensures OpId(i, m) in c.alongIds
    {
      assert c.alongIds[m - 1] == OpId(i, m);
    }
    ExtendKeepsLinked(c, b, u, d, op, content, id);
  }

  lemma LinkedShapes(c: Space, b: Space, u: seq<Msg>, d: seq<Msg>)
    requires Linked(c, b, u, d)
    ensures Shape(c) && Shape(b) && |b.acrossIds| <= |c.alongIds| && b.acrossIds == c.alongIds[..|b.acrossIds|]
    ensures |b.rows| <= |c.alongIds| + 1 && |c.rows| <= |b.alongIds| + 1
  {
  }

  lemma DeliveryKeepsClient(i: NodeId, c: Space, b: Space, u: seq<Msg>, d: seq<Msg>)
    requires ClientLinked(i, c, b, u, d) && d != []
    ensures Shape(c) && Last(c).lo <= d[0].mark <= Hi(Last(c))
    ensures ClientLinked(i, Insert(c, d[0].mark, d[0].op, d[0].id), b, u, d[1..])
  {
    LinkIsSymmetric(c, b, u, d);
    InsertKeepsLinked(b, c, d, u);
    LinkIsSymmetric(b, Insert(c, d[0].mark, d[0].op, d[0].id), d[1..], u);
  }

  lemma TakingKeepsClient(i: NodeId, c: Space, b: Space, u: seq<Msg>, d: seq<Msg>)
    requires ClientLinked(i, c, b, u, d) && u != []
    ensures Shape(b) && Last(b).lo <= u[0].mark <= Hi(Last(b))
    ensures ClientLinked(i, c, Insert(b, u[0].mark, u[0].op, u[0].id), u[1..], d)
  {
    InsertKeepsLinked(c, b, u, d);
  }

  lemma ForwardingKeepsClient(i: NodeId, c: Space, b: Space, u: seq<Msg>, d: seq<Msg>, op: Op, content: Content, id: OpId)
    requires ClientLinked(i, c, b, u, d) && id.client != i && id !in AllIds(b) && id.num > 0 && Precede(b.alongIds, id)
    ensures ClientLinked(i, c, Extend(b, op, content, id), u, d + [Outgoing(b, op, id)])
  {
    hide Linked, Shape;
    LinkIsSymmetric(c, b, u, d);
    LinkedShapes(c, b, u, d);
    ExtendKeepsLinked(b, c, d, u, op, content, id);
    LinkIsSymmetric(Extend(b, op, content, id), c, d + [Outgoing(b, op, id)], u);
  }

  lemma LocalKeepsLinks(s: System, e: Event)
    requires Links(s) && Enabled(s, e) && e.LocalOp?
    ensures Links(Step(s, e))
  {
    hide ClientLinked, Extend, Outgoing, Shape, AllIds, Accepts, Prints, Redraws;
    var t := Step(s, e);
    assert LinkedAt(s, e.at);
    ExtendKeepsShape(s.clients[e.at], e.op, e.content, NextId(e.at, s.clients[e.at]));
    LocalKeepsClient(e.at, s.clients[e.at], s.spaces[e.at], s.up[e.at], s.down[e.at], e.op, e.content);
    RedrawKeepsVertices(s.graphs[e.at], e.op, e.adj);
    assert WellKeyed(t);
    OneClientLinked(s, t, e.at);
  }

  lemma RedrawKeepsVertices(f: Figure, op: Op, adj: Adj)
    requires |f.adj| == |f.data| && Redraws(f, op, adj)
    ensures |adj| == |f.data|
  {
  }

  /** Only the data of client `at` changed, and not the server's spaces. */
  lemma OneClientLinked(s: System, t: System, at: NodeId)
    requires Links(s) && WellKeyed(t) && t.clients.Keys == s.clients.Keys && t.spaces == s.spaces && at in s.clients
    requires forall i :: i in s.clients && i != at ==> t.clients[i] == s.clients[i] && t.up[i] == s.up[i] && t.down[i] == s.down[i]
    requires LinkedAt(t, at)
    ensures Links(t)
  {
    hide ClientLinked, Shape, AllIds;
    forall i | i in t.clients
      ensures LinkedAt(t, i)
    {
      assert LinkedAt(s, i);
    }
    forall i, j | i in t.clients && j in t.clients
      ensures SameIds(t, i, j)
    {
      assert SameIds(s, i, j);
    }
  }

  /** The client's step once the context has been found. */
  ghost function Delivered(s: System, at: NodeId, adj: Adj): System
    requires WellKeyed(s) && at in s.clients && s.down[at] != []
    requires Last(s.clients[at]).lo <= s.down[at][0].mark <= Hi(Last(s.clients[at]))
  {
    var m, c := s.down[at][0], s.clients[at];
    System(s.clients[at := Insert(c, m.mark, m.op, m.id)], s.graphs[at := s.graphs[at].(adj := adj)], s.spaces,
           s.up, s.down[at := s.down[at][1..]])
  }

  lemma ClientTakesDelivers(s: System, at: NodeId, adj: Adj)
    requires Links(s) && at in s.clients && s.down[at] != [] && Enabled(s, ClientTakes(at, adj))
    ensures Last(s.clients[at]).lo <= s.down[at][0].mark <= Hi(Last(s.clients[at]))
    ensures Step(s, ClientTakes(at, adj)) == Delivered(s, at, adj)
    ensures Redraws(s.graphs[at], Transformed(s.clients[at], s.down[at][0].mark, s.down[at][0].op), adj)
  {
    hide Linked, Locate, Transformed, Weave, Insert, Redraws, Shape;
    assert LinkedAt(s, at);
    ClientFindsContext(at, s.clients[at], s.spaces[at], s.up[at], s.down[at]);
  }

  lemma DeliveryKeepsLinks(s: System, at: NodeId, adj: Adj)
    requires Links(s) && Enabled(s, ClientTakes(at, adj))
    ensures Links(Step(s, ClientTakes(at, adj)))
  {
    hide ClientLinked, Insert, Shape, AllIds, Redraws, Transformed, Step, Enabled;
    EnabledTakes(s, at, adj);
    var c, m := s.clients[at], s.down[at][0];
    assert LinkedAt(s, at);
    ClientTakesDelivers(s, at, adj);
    RedrawKeepsVertices(s.graphs[at], Transformed(c, m.mark, m.op), adj);
    InsertKeepsShape(c, m.mark, m.op, m.id);
    DeliveryKeepsClient(at, c, s.spaces[at], s.up[at], s.down[at]);
    var t := Delivered(s, at, adj);
    assert WellKeyed(t);
    OneClientLinked(s, t, at);
  }

  lemma EnabledTakes(s: System, at: NodeId, adj: Adj)
    requires Enabled(s, ClientTakes(at, adj))
    ensures WellKeyed(s) && at in s.clients && s.down[at] != []
  {
  }

  /** The server's step once the context has been found. */
  ghost function Taken(s: System, from: NodeId): System
    requires WellKeyed(s) && from in s.clients && s.up[from] != []
    requires Last(s.spaces[from]).lo <= s.up[from][0].mark <= Hi(Last(s.spaces[from]))
  {
    var m, b := s.up[from][0], s.spaces[from];
    var f := Transformed(b, m.mark, m.op);
    System(s.clients, s.graphs,
           map j | j in s.spaces :: if j == from then Insert(b, m.mark, m.op, m.id)
                                    else Extend(s.spaces[j], f, Update(Final(s.spaces[j]), f), m.id),
           s.up[from := s.up[from][1..]],
           map j | j in s.down :: if j == from then s.down[j] else s.down[j] + [Outgoing(s.spaces[j], f, m.id)])
  }

  lemma ServerStepTakes(s: System, from: NodeId)
    requires Links(s) && from in s.clients && s.up[from] != []
    ensures Last(s.spaces[from]).lo <= s.up[from][0].mark <= Hi(Last(s.spaces[from]))
    ensures ServerStep(s, from) == Taken(s, from)
  {
    hide Linked, Transformed, Locate, Weave, Shape, Update, Insert, Extend, AllIds, Final;
    var m, b := s.up[from][0], s.spaces[from];
    assert LinkedAt(s, from);
    ServerFindsContext(from, s.clients[from], b, s.up[from], s.down[from]);
    var f, ctx := Transformed(b, m.mark, m.op), m.ctx + Ids(b.alongIds[m.mark..]);
    forall j | j in s.down && j != from
      ensures Forward(s.spaces[j], f, m.id, ctx) == Outgoing(s.spaces[j], f, m.id)
    {
      assert SameIds(s, from, j);
    }
    assert ServerStep(s, from).down == Taken(s, from).down;
  }

  lemma TakenIsWellKeyed(s: System, from: NodeId)
    requires WellKeyed(s) && from in s.clients && s.up[from] != []
    requires Last(s.spaces[from]).lo <= s.up[from][0].mark <= Hi(Last(s.spaces[from]))
    ensures WellKeyed(Taken(s, from))
  {
    hide Shape, Update, Transformed;
    var m, b, t := s.up[from][0], s.spaces[from], Taken(s, from);
    var f := Transformed(b, m.mark, m.op);
    forall i | i in t.spaces
      ensures Shape(t.spaces[i])
    {
      if i == from {
        InsertKeepsShape(b, m.mark, m.op, m.id);
      } else {
        ExtendKeepsShape(s.spaces[i], f, Update(Final(s.spaces[i]), f), m.id);
      }
    }
  }

  /** Earlier operations of client `from` are already among those the server has for client `i` from elsewhere. */
  lemma ForwardedInOrder(s: System, from: NodeId, i: NodeId)
    requires Links(s) && from in s.clients && s.up[from] != [] && i in s.clients && i != from
    ensures var id := s.up[from][0].id;
            id.client == from && id.num > 0 && Precede(s.spaces[i].alongIds, id) && id !in AllIds(s.spaces[i])
  {
    hide Channel, DistinctIds, InOrder, Shape;
    var c, b, id := s.clients[from], s.spaces[from], s.up[from][0].id;
    assert LinkedAt(s, from) && LinkedAt(s, i) && SameIds(s, from, i);
    HeadIsFresh(c, b, s.up[from], s.down[from]);
    LinkedShapes(c, b, s.up[from], s.down[from]);
    LinkedShapes(s.clients[i], s.spaces[i], s.up[i], s.down[i]);
    forall m | 0 < m < id.num
      ensures OpId(from, m) in s.spaces[i].alongIds
    {
      assert b.acrossIds[m - 1] == c.alongIds[m - 1] == OpId(from, m);
      assert OpId(from, m) in AllIds(b);
      assert OpId(from, m) !in s.spaces[i].acrossIds;
    }
  }

  lemma TakenKeepsOrigin(s: System, from: NodeId)
    requires Links(s) && from in s.clients && s.up[from] != []
    requires Last(s.spaces[from]).lo <= s.up[from][0].mark <= Hi(Last(s.spaces[from])) && WellKeyed(Taken(s, from))
    ensures LinkedAt(Taken(s, from), from) && AllIds(Taken(s, from).spaces[from]) == AllIds(s.spaces[from]) + {s.up[from][0].id}
  {
    hide Linked, Shape, Weave;
    assert LinkedAt(s, from);
    TakingKeepsClient(from, s.clients[from], s.spaces[from], s.up[from], s.down[from]);
    var t1 := Taken(s, from).spaces[from];
    assert Ids(t1.acrossIds) == Ids(s.spaces[from].acrossIds) + {s.up[from][0].id};
  }

  lemma TakenKeepsOther(s: System, from: NodeId, i: NodeId)
    requires Links(s) && from in s.clients && s.up[from] != [] && i in s.clients && i != from
    requires Last(s.spaces[from]).lo <= s.up[from][0].mark <= Hi(Last(s.spaces[from])) && WellKeyed(Taken(s, from))
    ensures LinkedAt(Taken(s, from), i) && AllIds(Taken(s, from).spaces[i]) == AllIds(s.spaces[i]) + {s.up[from][0].id}
  {
    hide Linked, Shape, Weave, Update, Transformed, Insert;
    var b, m := s.spaces[from], s.up[from][0];
    var f := Transformed(b, m.mark, m.op);
    assert LinkedAt(s, i);
    ForwardedInOrder(s, from, i);
    ForwardingKeepsClient(i, s.clients[i], s.spaces[i], s.up[i], s.down[i], f, Update(Final(s.spaces[i]), f), m.id);
    var t2 := Taken(s, from).spaces[i];
    assert Ids(t2.alongIds) == Ids(s.spaces[i].alongIds) + {m.id};
  }

  lemma ServerKeepsLinks(s: System, from: NodeId)
    requires Links(s) && from in s.clients && s.up[from] != []
    ensures Links(ServerStep(s, from))
  {
    hide LinkedAt, AllIds, Taken, ServerStep, Shape;
    ServerStepTakes(s, from);
    TakenIsWellKeyed(s, from);
    var t := Taken(s, from);
    assert t.clients == s.clients by { TakenClients(s, from); }
    forall i | i in t.clients
      ensures LinkedAt(t, i) && AllIds(t.spaces[i]) == AllIds(s.spaces[i]) + {s.up[from][0].id}
    {
      if i == from {
        TakenKeepsOrigin(s, from);
      } else {
        TakenKeepsOther(s, from, i);
      }
    }
    forall i, j | i in t.clients && j in t.clients
      ensures SameIds(t, i, j)
    {
      assert SameIds(s, i, j);
    }
  }

  lemma TakenClients(s: System, from: NodeId)
    requires WellKeyed(s) && from in s.clients && s.up[from] != []
    requires Last(s.spaces[from]).lo <= s.up[from][0].mark <= Hi(Last(s.spaces[from]))
    ensures Taken(s, from).clients == s.clients && Taken(s, from).graphs == s.graphs
  {
  }

  lemma StepKeepsLinks(s: System, e: Event)
    requires Links(s) && Enabled(s, e)
    ensures Links(Step(s, e))
  {
    hide Links, ServerStep;
    match e
    case LocalOp(_, _, _, _) => LocalKeepsLinks(s, e);
    case ServerTakes(from) => ServerKeepsLinks(s, from);
    case ClientTakes(at, adj) => DeliveryKeepsLinks(s, at, adj);
  }

  lemma FreshIsLinked(i: NodeId, c: Content, d: Content)
    ensures ClientLinked(i, FreshSpace(c), FreshSpace(d), [], []) && AllIds(FreshSpace(d)) == {}
  {
  }

  lemma InitIsLinked(s: System)
    requires Init(s)
    ensures Links(s)
  {
    hide ClientLinked, FreshSpace, AllIds, Prints, Shape;
    forall i | i in s.clients
      ensures LinkedAt(s, i) && AllIds(s.spaces[i]) == {}
    {
      assert FreshAt(s, i);
      FreshIsLinked(i, Final(s.clients[i]), Final(s.spaces[i]));
    }
    forall i, j | i in s.clients && j in s.clients
      ensures SameIds(s, i, j)
    {
      assert LinkedAt(s, i) && LinkedAt(s, j);
    }
  }

  /** Over every run, whatever the operations: the bookkeeping is in order, so every context is found. */
  lemma {:induction false} RunKeepsLinks(s0: System, run: seq<Event>, s: System)
    requires Links(s0) && Runs(s0, run, s)
    ensures Links(s)
    decreases |run|
  {
    hide Links, Enabled, Step;
    if run != [] {
      StepKeepsLinks(s0, run[0]);
      RunKeepsLinks(Step(s0, run[0]), run[1..], s);
    }
  }

  // ---------------------------------------------------------------- the vertices stay

  ghost predicate SameVertices(s: System, t: System) {
    && s.graphs.Keys == t.graphs.Keys == s.clients.Keys == t.clients.Keys
    && forall i :: i in s.graphs ==> t.graphs[i].data == s.graphs[i].data
  }

  lemma StepKeepsVertices(s: System, e: Event)
    requires Enabled(s, e)
    ensures SameVertices(s, Step(s, e))
  {
    hide Extend, Insert, Placed, Column, Redraws, Accepts, Prints, Shape, Outgoing, Transformed, Shown, Executed;
  }

  lemma {:induction false} RunKeepsVertices(s0: System, run: seq<Event>, s: System)
    requires Runs(s0, run, s) && WellKeyed(s0)
    ensures SameVertices(s0, s)
    decreases |run|
  {
    hide Enabled, Step, WellKeyed;
    if run == [] {
      KeysAgree(s0);
    } else {
      StepKeepsVertices(s0, run[0]);
      EnabledIsKeyed(s0, run[0]);
      if run[1..] != [] {
        EnabledIsKeyed(Step(s0, run[0]), run[1..][0]);
        RunKeepsVertices(Step(s0, run[0]), run[1..], s);
      }
    }
  }

  lemma KeysAgree(s: System)
    requires WellKeyed(s)
    ensures SameVertices(s, s)
  {
  }

  lemma EnabledIsKeyed(s: System, e: Event)
    requires Enabled(s, e)
    ensures WellKeyed(s)
  {
  }

  /** UINIT: every replica builds its graph from the same text and prints it. */
  function Start(ids: set<NodeId>, f: Figure, c: Content): System {
    System(map i | i in ids :: FreshSpace(c), map i | i in ids :: f, map i | i in ids :: FreshSpace(c),
           map i | i in ids :: [], map i | i in ids :: [])
  }

  lemma StartIsInit(ids: set<NodeId>, f: Figure, c: Content)
    requires Graph(f.data, f.adj) && Prints(f, c)
    ensures Init(Start(ids, f, c)) && Start(ids, f, c).clients.Keys == ids
  {
    hide Valid, Abs, Prints, Shown, Cliques;
    var s := Start(ids, f, c);
    assert Shape(FreshSpace(c)) && Final(FreshSpace(c)) == c;
    forall i | i in s.clients
      ensures FreshAt(s, i)
    {
      assert s.clients[i] == FreshSpace(c) && s.spaces[i] == FreshSpace(c);
    }
  }
}
