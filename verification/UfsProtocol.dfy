/** Convergence: if every SPLIT a user gave names one element, every client's graph shows what the texts of its space
    say, and clients with nothing in flight answer queries from the same relation. */
module UfsProtocol {
  import opened Base
  import opened UfsPartition
  import opened UfsTransform
  import opened UfsGraph
  import opened UfsPrint
  import opened UfsValue
  import opened UfsSpace
  import opened UfsPair
  import opened UfsSystem

  /** Every SPLIT given by a user names one element. */
  predicate SingleSplits(run: seq<Event>) {
    forall k :: 0 <= k < |run| && run[k].LocalOp? ==> SingleSplit(run[k].op)
  }

  ghost predicate AgreeAt(s: System, i: NodeId)
    requires WellKeyed(s) && i in s.clients
  {
    Agree(s.clients[i], s.spaces[i])
  }

  /** Any two of the server's spaces end in the same relation. */
  ghost predicate ServerOk(b1: Space, b2: Space) {
    Shape(b1) && Shape(b2) && Valid(Final(b1)) && Abs(Final(b1)) == Abs(Final(b2))
  }

  ghost predicate Alike(s: System, i: NodeId, j: NodeId)
    requires WellKeyed(s) && i in s.clients && j in s.clients
  {
    ServerOk(s.spaces[i], s.spaces[j])
  }

  /** The graph shows what the text of the final state says. */
  ghost predicate Drawn(f: Figure, c: Space) {
    && |f.adj| == |f.data| && Shape(c) && Graph(f.data, f.adj) && !Lone(f.data) && Shown(f) == Abs(Final(c))
  }

  ghost predicate DrawnAt(s: System, i: NodeId)
    requires WellKeyed(s) && i in s.clients
  {
    Drawn(s.graphs[i], s.clients[i])
  }

  ghost predicate Meanings(s: System) {
    && WellKeyed(s)
    && (forall i {:trigger AgreeAt(s, i)} :: i in s.clients ==> AgreeAt(s, i))
    && (forall i {:trigger DrawnAt(s, i)} :: i in s.clients ==> DrawnAt(s, i))
    && (forall i, j {:trigger Alike(s, i, j)} :: i in s.clients && j in s.clients ==> Alike(s, i, j))
  }

  ghost predicate Inv(s: System) {
    Links(s) && Meanings(s)
  }

  /** What a client prints after an operation of its user is a text the protocol can go on from. */
  lemma LocalTextLeads(f: Figure, c: Space, op: Op, adj: Adj, content: Content)
    requires Drawn(f, c) && Accepts(Shown(f), op) && SingleSplit(op) && Redraws(f, op, adj)
    requires Prints(Figure(f.data, adj), content) && Valid(Final(c))
    ensures Leads(Final(c), op, content) && Graph(f.data, adj) && Shown(Figure(f.data, adj)) == Abs(content)
  {
    hide Shown, Valid, Abs, Apply, Meaning, Cliques, OpOk, OpKnown;
    OkIsKnown(f, op);
  }

  lemma FinalIsValid(c: Space, b: Space)
    requires Agree(c, b)
    ensures Valid(Final(c)) && Valid(Final(b))
  {
    assert RowOk(c.rows[|c.rows| - 1]) && RowOk(b.rows[|b.rows| - 1]);
  }

  lemma LocalKeepsMeaning(f: Figure, c: Space, b: Space, op: Op, adj: Adj, content: Content, id: OpId)
    requires Agree(c, b) && Drawn(f, c) && |b.rows| <= |c.alongIds| + 1
    requires Accepts(Shown(f), op) && SingleSplit(op) && Redraws(f, op, adj) && Prints(Figure(f.data, adj), content)
    ensures Agree(Extend(c, op, content, id), b) && Drawn(Figure(f.data, adj), Extend(c, op, content, id))
  {
    hide Agree, Shown, Valid, Abs, Leads, Accepts, Redraws, Prints, Shape;
    FinalIsValid(c, b);
    AgreedShapes(c, b);
    LocalTextLeads(f, c, op, adj, content);
    ExtendKeepsAgreement(c, b, op, content, id);
    ExtendKeepsShape(c, op, content, id);
    ExtendedFinal(c, op, content, id);
  }

  lemma AgreedShapes(c: Space, b: Space)
    requires Agree(c, b)
    ensures Shape(c) && Shape(b)
  {
  }

  lemma ExtendedFinal(c: Space, op: Op, content: Content, id: OpId)
    requires Shape(c)
    ensures Shape(Extend(c, op, content, id)) && Final(Extend(c, op, content, id)) == content
  {
    ExtendKeepsShape(c, op, content, id);
  }

  lemma DeliveryKeepsMeaning(f: Figure, c: Space, b: Space, m: Msg, adj: Adj)
    requires Enters(b, c, m.mark, m.op) && Drawn(f, c) && Redraws(f, Transformed(c, m.mark, m.op), adj)
    ensures Agree(Insert(c, m.mark, m.op, m.id), b) && Drawn(Figure(f.data, adj), Insert(c, m.mark, m.op, m.id))
  {
    hide Agree, Shown, Valid, Abs, Shape, Insert, Transformed, OpOk, Apply, Meaning, OpKnown, HasAlong, HasCell, Along, Cell;
    var t, op := Insert(c, m.mark, m.op, m.id), Transformed(c, m.mark, m.op);
    InsertKeepsAgreement(b, c, m.mark, m.op, m.id);
    AgreeIsSymmetric(b, t);
    TransformedLeads(b, c, m.mark, m.op, m.id);
    OkIsKnown(f, op);
  }

  /** The server's spaces stay alike: one receives the operation, the others its transformed form. */
  lemma TakenAndForwarded(c: Space, b: Space, b2: Space, x: nat, op: Op, id: OpId)
    requires Enters(c, b, x, op) && ServerOk(b, b2) && ServerOk(b2, b)
    ensures var f := Transformed(b, x, op);
      && OpFits(Final(b2), f) && Leads(Final(b2), f, Update(Final(b2), f))
      && ServerOk(Insert(b, x, op, id), Extend(b2, f, Update(Final(b2), f), id))
      && ServerOk(Extend(b2, f, Update(Final(b2), f), id), Insert(b, x, op, id))
  {
    hide Valid, Abs, Update, Transform, Meaning, Apply, After, OpOk, SingleSplit, Weave;
    var f := Transformed(b, x, op);
    TransformedLeads(c, b, x, op, id);
    UpdateMeans(Final(b2), f);
    ExtendKeepsShape(b2, f, Update(Final(b2), f), id);
  }

  lemma ServerOkIsEquivalence(b1: Space, b2: Space, b3: Space)
    requires ServerOk(b1, b2) && ServerOk(b1, b3)
    ensures Valid(Final(b2)) ==> ServerOk(b2, b1) && ServerOk(b2, b3)
  {
  }

  /** Only client `at` changed, and not the server's spaces. */
  lemma OneClientMeans(s: System, t: System, at: NodeId)
    requires Meanings(s) && WellKeyed(t) && t.clients.Keys == s.clients.Keys && t.spaces == s.spaces && at in s.clients
    requires forall i :: i in s.clients && i != at ==> t.clients[i] == s.clients[i] && t.graphs[i] == s.graphs[i]
    requires AgreeAt(t, at) && DrawnAt(t, at)
    ensures Meanings(t)
  {
    hide Agree, Drawn, ServerOk, Shape;
    forall i | i in t.clients
      ensures AgreeAt(t, i) && DrawnAt(t, i)
    {
      assert AgreeAt(s, i) && DrawnAt(s, i);
    }
    forall i, j | i in t.clients && j in t.clients
      ensures Alike(t, i, j)
    {
      assert Alike(s, i, j);
    }
  }

  lemma LocalKeepsInv(s: System, e: Event)
    requires Inv(s) && Enabled(s, e) && e.LocalOp? && SingleSplit(e.op)
    ensures Meanings(Step(s, e))
  {
    hide Linked, Agree, Drawn, Shape, Accepts, Prints, Redraws, Shown, Extend, SingleSplit;
    var t, c, b := Step(s, e), s.clients[e.at], s.spaces[e.at];
    assert LinkedAt(s, e.at) && AgreeAt(s, e.at) && DrawnAt(s, e.at);
    LinkedShapes(c, b, s.up[e.at], s.down[e.at]);
    ExtendKeepsShape(c, e.op, e.content, NextId(e.at, c));
    RedrawKeepsVertices(s.graphs[e.at], e.op, e.adj);
    LocalKeepsMeaning(s.graphs[e.at], c, b, e.op, e.adj, e.content, NextId(e.at, c));
    assert WellKeyed(t);
    OneClientMeans(s, t, e.at);
  }

  lemma DeliveryKeepsInv(s: System, at: NodeId, adj: Adj)
    requires Inv(s) && Enabled(s, ClientTakes(at, adj))
    ensures Meanings(Step(s, ClientTakes(at, adj)))
  {
    hide Linked, Agree, Drawn, Shape, Redraws, Step, Enabled, Insert, Transformed, Enters;
    EnabledTakes(s, at, adj);
    var c, b, m := s.clients[at], s.spaces[at], s.down[at][0];
    assert LinkedAt(s, at) && AgreeAt(s, at) && DrawnAt(s, at);
    ClientTakesDelivers(s, at, adj);
    LinkIsSymmetric(c, b, s.up[at], s.down[at]);
    AgreeIsSymmetric(c, b);
    MessageFits(b, c, s.down[at], s.up[at]);
    InsertKeepsShape(c, m.mark, m.op, m.id);
    RedrawKeepsVertices(s.graphs[at], Transformed(c, m.mark, m.op), adj);
    DeliveryKeepsMeaning(s.graphs[at], c, b, m, adj);
    var t := Delivered(s, at, adj);
    assert WellKeyed(t);
    OneClientMeans(s, t, at);
  }

  lemma ServerKeepsOrigin(s: System, from: NodeId)
    requires Inv(s) && from in s.clients && s.up[from] != []
    requires Last(s.spaces[from]).lo <= s.up[from][0].mark <= Hi(Last(s.spaces[from])) && WellKeyed(Taken(s, from))
    ensures Enters(s.clients[from], s.spaces[from], s.up[from][0].mark, s.up[from][0].op)
    ensures AgreeAt(Taken(s, from), from) && Alike(Taken(s, from), from, from)
  {
    hide Linked, Agree, Shape, Insert, Transformed, Enters, Leads, Drawn, Abs;
    var b, m := s.spaces[from], s.up[from][0];
    assert LinkedAt(s, from) && AgreeAt(s, from);
    MessageFits(s.clients[from], b, s.up[from], s.down[from]);
    InsertKeepsAgreement(s.clients[from], b, m.mark, m.op, m.id);
    FinalIsValid(s.clients[from], Insert(b, m.mark, m.op, m.id));
  }

  lemma ServerKeepsOther(s: System, from: NodeId, i: NodeId)
    requires Inv(s) && from in s.clients && s.up[from] != [] && i in s.clients && i != from
    requires Last(s.spaces[from]).lo <= s.up[from][0].mark <= Hi(Last(s.spaces[from])) && WellKeyed(Taken(s, from))
    requires Enters(s.clients[from], s.spaces[from], s.up[from][0].mark, s.up[from][0].op)
    ensures AgreeAt(Taken(s, from), i) && Alike(Taken(s, from), from, i) && Valid(Final(Taken(s, from).spaces[i]))
  {
    hide Linked, Agree, Shape, Valid, Abs, Update, Enters, Leads, OpFits, Insert, Extend, Transformed, Drawn;
    var b, m := s.spaces[from], s.up[from][0];
    var f := Transformed(b, m.mark, m.op);
    assert LinkedAt(s, i) && AgreeAt(s, i) && Alike(s, from, i) && Alike(s, i, from);
    LinkedShapes(s.clients[i], s.spaces[i], s.up[i], s.down[i]);
    TakenAndForwarded(s.clients[from], b, s.spaces[i], m.mark, m.op, m.id);
    AgreeIsSymmetric(s.clients[i], s.spaces[i]);
    ExtendKeepsAgreement(s.spaces[i], s.clients[i], f, Update(Final(s.spaces[i]), f), m.id);
    AgreeIsSymmetric(Extend(s.spaces[i], f, Update(Final(s.spaces[i]), f), m.id), s.clients[i]);
  }

  lemma ServerKeepsInv(s: System, from: NodeId)
    requires Inv(s) && from in s.clients && s.up[from] != []
    ensures Meanings(ServerStep(s, from))
  {
    hide LinkedAt, AgreeAt, Drawn, Taken, ServerStep, Shape, Enters, SameIds, Valid, Abs;
    ServerStepTakes(s, from);
    TakenIsWellKeyed(s, from);
    TakenClients(s, from);
    var t := Taken(s, from);
    ServerKeepsOrigin(s, from);
    forall i | i in t.clients
      ensures AgreeAt(t, i) && Alike(t, from, i) && Valid(Final(t.spaces[i])) && DrawnAt(t, i)
    {
      assert DrawnAt(s, i);
      if i != from {
        ServerKeepsOther(s, from, i);
      }
    }
    forall i, j | i in t.clients && j in t.clients
      ensures Alike(t, i, j)
    {
      assert Alike(t, from, i) && Alike(t, from, j);
      ServerOkIsEquivalence(t.spaces[from], t.spaces[i], t.spaces[j]);
    }
  }

  lemma StepKeepsInv(s: System, e: Event)
    requires Inv(s) && Enabled(s, e) && (e.LocalOp? ==> SingleSplit(e.op))
    ensures Inv(Step(s, e))
  {
    hide Links, Meanings, ServerStep, SingleSplit;
    StepKeepsLinks(s, e);
    match e
    case LocalOp(_, _, _, _) => LocalKeepsInv(s, e);
    case ServerTakes(from) => ServerKeepsInv(s, from);
    case ClientTakes(at, adj) => DeliveryKeepsInv(s, at, adj);
  }

  lemma FreshAgree(c: Content, d: Content)
    requires Valid(c) && Valid(d) && Abs(c) == Abs(d)
    ensures Agree(FreshSpace(c), FreshSpace(d))
  {
    var a, b := FreshSpace(c), FreshSpace(d);
    assert RowOk(a.rows[0]) && RowOk(b.rows[0]);
  }

  lemma InitMeans(s: System)
    requires Init(s) && forall i :: i in s.clients ==> !Lone(s.graphs[i].data)
    ensures Meanings(s)
  {
    hide Agree, FreshSpace, Shape, Shown, Valid, Abs, Graph, Lone;
    forall i | i in s.clients
      ensures AgreeAt(s, i) && DrawnAt(s, i)
    {
      assert FreshAt(s, i) && SameStart(s, i, i);
      FreshAgree(Final(s.clients[i]), Final(s.spaces[i]));
    }
    forall i, j | i in s.clients && j in s.clients
      ensures Alike(s, i, j)
    {
      assert FreshAt(s, i) && FreshAt(s, j) && SameStart(s, i, j);
    }
  }

  lemma {:induction false} RunKeepsInv(s0: System, run: seq<Event>, s: System)
    requires Inv(s0) && Runs(s0, run, s) && SingleSplits(run)
    ensures Inv(s)
    decreases |run|
  {
    hide Inv, Enabled, Step, SingleSplit;
    if run != [] {
      StepKeepsInv(s0, run[0]);
      RunKeepsInv(Step(s0, run[0]), run[1..], s);
    }
  }

  /** Every graph depicts the final text of its client, over every run with splits of one name, unless the value is a
      lone element of several letters. */
  lemma GraphsDepict(s0: System, run: seq<Event>, s: System, i: NodeId)
    requires Init(s0) && Runs(s0, run, s) && SingleSplits(run) && WellKeyed(s) && i in s.clients
    requires !Lone(s.graphs[i].data)
    ensures Graph(s.graphs[i].data, s.graphs[i].adj) && Shown(s.graphs[i]) == Abs(Final(s.clients[i]))
  {
    hide Runs, Init, Inv;
    ReachesInv(s0, run, s, i);
    InvDraws(s, i);
  }

  lemma InvDraws(s: System, i: NodeId)
    requires Inv(s) && i in s.clients
    ensures Graph(s.graphs[i].data, s.graphs[i].adj) && Shown(s.graphs[i]) == Abs(Final(s.clients[i]))
  {
    assert DrawnAt(s, i);
  }

  lemma ReachesInv(s0: System, run: seq<Event>, s: System, i: NodeId)
    requires Init(s0) && Runs(s0, run, s) && SingleSplits(run) && WellKeyed(s) && i in s.clients
    requires !Lone(s.graphs[i].data)
    ensures Inv(s)
  {
    hide Runs, FreshAt, Links, Meanings, Lone, Shape, SingleSplits;
    RunKeepsVertices(s0, run, s);
    forall j | j in s0.clients
      ensures !Lone(s0.graphs[j].data)
    {
      assert SameStart(s0, i, j);
    }
    InitIsLinked(s0);
    InitMeans(s0);
    RunKeepsInv(s0, run, s);
  }

  /** Convergence: whatever the clients did and however the messages interleaved, two clients that have nothing in
      flight have executed the same operations; and if every split named one element, both answer queries from the
      same relation. */
  lemma Convergence(s0: System, run: seq<Event>, s: System, i: NodeId, j: NodeId)
    requires Init(s0) && Runs(s0, run, s) && WellKeyed(s) && i in s.clients && j in s.clients
    requires s.up[i] == [] && s.down[i] == [] && s.up[j] == [] && s.down[j] == []
    ensures AllIds(s.clients[i]) == AllIds(s.clients[j])
    ensures SingleSplits(run) ==> Shown(s.graphs[i]) == Shown(s.graphs[j])
  {
    hide Runs, FreshAt, Meanings, Lone, Shape, SingleSplits, Agree, Linked, Drawn;
    InitIsLinked(s0);
    RunKeepsLinks(s0, run, s);
    RunKeepsVertices(s0, run, s);
    assert SameStart(s0, i, j) && LinkedAt(s, i) && LinkedAt(s, j) && SameIds(s, i, j);
    QuietPairAgrees(s.clients[i], s.spaces[i]);
    QuietPairAgrees(s.clients[j], s.spaces[j]);
    if SingleSplits(run) {
      if Lone(s.graphs[i].data) {
        LoneShows(s.graphs[i], s.graphs[j]);
      } else {
        ReachesInv(s0, run, s, i);
        ClientsAlike(s, i, j);
      }
    }
  }

  lemma LoneShows(f: Figure, g: Figure)
    requires Lone(f.data) && f.data == g.data && |f.adj| == |f.data| && |g.adj| == |g.data|
    ensures Shown(f) == Shown(g)
  {
    OneVertexShows(f);
    OneVertexShows(g);
  }

  lemma ClientsAlike(s: System, i: NodeId, j: NodeId)
    requires Inv(s) && i in s.clients && j in s.clients
    requires s.up[i] == [] && s.down[i] == [] && s.up[j] == [] && s.down[j] == []
    ensures Shown(s.graphs[i]) == Shown(s.graphs[j])
  {
    hide Linked, Agree, Shape;
    assert LinkedAt(s, i) && LinkedAt(s, j) && AgreeAt(s, i) && AgreeAt(s, j);
    assert DrawnAt(s, i) && DrawnAt(s, j) && Alike(s, i, j);
    QuietPairAgrees(s.clients[i], s.spaces[i]);
    QuietPairAgrees(s.clients[j], s.spaces[j]);
  }
}
