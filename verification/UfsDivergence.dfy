/** Why convergence is stated for splits of one name: a run of two clients, with a UNION and a SPLIT of two names at
    once, everything delivered, and different relations at the end. */
module UfsDivergence {
  import opened Base
  import opened UfsPartition
  import opened UfsTransform
  import opened UfsGraph
  import opened UfsPrint
  import opened UfsValue
  import opened UfsSpace
  import opened UfsPair
  import opened UfsSystem
  import opened UfsSets

  const JOIN := Union(Names(["a"]), Names(["c"]))
  const PART := Split(Names(["a", "b"]))
  const BY_FIRST := OpId(1, 1)
  const BY_SECOND := OpId(2, 1)

  const NAMES: seq<Elem> := ["a", "b", "c"]
  const APART := Figure(NAMES, [[1], [0], []])
  const JOINED := Figure(NAMES, [[1, 2], [0, 2], [0, 1]])

  // ---------------------------------------------------------------- the two graphs

  lemma DifferentNames()
    ensures NAMES[0] != NAMES[1] && NAMES[0] != NAMES[2] && NAMES[1] != NAMES[2]
    ensures NAMES[0] == "a" && NAMES[1] == "b" && NAMES[2] == "c"
  {
    assert NAMES[0][0] == 'a' && NAMES[1][0] == 'b' && NAMES[2][0] == 'c';
  }

  lemma ApartIsGraph()
    ensures Graph(APART.data, APART.adj)
  {
    DifferentNames();
    assert forall x: nat, y: nat :: Edge(APART.adj, x, y) <==> (x == 0 && y == 1) || (x == 1 && y == 0);
  }

  lemma JoinedIsGraph()
    ensures Graph(JOINED.data, JOINED.adj)
  {
    DifferentNames();
    assert forall x: nat, y: nat :: Edge(JOINED.adj, x, y) <==> x < 3 && y < 3 && x != y;
  }

  lemma ApartNames(x: nat)
    requires x < 3
    ensures ClassNames(NAMES, APART.adj, x) == if x < 2 then {"a", "b"} else {"c"}
  {
    assert Class(APART.adj, x) == if x < 2 then {0, 1} else {2};
    assert NAMES[0] == "a" && NAMES[1] == "b" && NAMES[2] == "c";
  }

  lemma JoinedNames(x: nat)
    requires x < 3
    ensures ClassNames(NAMES, JOINED.adj, x) == {"a", "b", "c"}
  {
    assert Class(JOINED.adj, x) == {0, 1, 2};
    assert NAMES[0] == "a" && NAMES[1] == "b" && NAMES[2] == "c";
  }

  lemma ThreeNames()
    ensures ToSet(NAMES) == {"a", "b", "c"}
  {
    assert NAMES[0] in NAMES && NAMES[1] in NAMES && NAMES[2] in NAMES;
  }

  const RELATION_APART: Eqv := map["a" := {"a", "b"}, "b" := {"a", "b"}, "c" := {"c"}]
  const RELATION_JOINED: Eqv := map["a" := {"a", "b", "c"}, "b" := {"a", "b", "c"}, "c" := {"a", "b", "c"}]

  lemma ApartShows()
    ensures Shown(APART) == RELATION_APART == Abs(TORN)
  {
    hide ClassNames, Cliques, Shown, Abs, TORN;
    DifferentNames();
    ApartIsGraph();
    TornIsOk();
    ThreeNames();
    ApartNames(0);
    ApartNames(1);
    ApartNames(2);
    ShownIsDepicted(APART, RELATION_APART);
  }

  lemma JoinedShows()
    ensures Shown(JOINED) == RELATION_JOINED
  {
    hide ClassNames, Cliques, Shown;
    DifferentNames();
    JoinedIsGraph();
    ThreeNames();
    JoinedNames(0);
    JoinedNames(1);
    JoinedNames(2);
    ShownIsDepicted(JOINED, RELATION_JOINED);
  }

  lemma Effects()
    ensures var r, j := RELATION_APART, RELATION_JOINED;
      Apply(r, Meaning(r, JOIN)) == j && Apply(r, Meaning(r, PART)) == r && Apply(j, Meaning(j, PART)) == r && r != j
    ensures Accepts(RELATION_APART, JOIN) && Accepts(RELATION_APART, PART)
  {
    DifferentNames();
    var r, j := RELATION_APART, RELATION_JOINED;
    assert "a" != "b" && "a" != "c" && "b" != "c";
    assert r["a"] == {"a", "b"} && r["b"] == {"a", "b"} && r["c"] == {"c"} && "c" !in r["a"];
    assert {"a", "b"} + {"c"} == {"a", "b", "c"} && {"a", "b", "c"} - {"a", "b"} == {"c"};
    assert JOIN.a.tokens[0] == "a" && JOIN.b.tokens[0] == "c";
    assert PART.s.tokens[0] == "a" && PART.s.tokens[1] == "b" && ToSet(PART.s.tokens) == {"a", "b"};
    assert Meaning(r, JOIN) == Join({"a", "b"}, {"c"});
    assert Meaning(r, PART) == Cut({"a", "b"}) == Meaning(j, PART);
    assert {"c"} - {"a", "b"} == {"c"};
    assert Apply(r, Meaning(r, JOIN)) == j;
    assert Apply(r, Cut({"a", "b"})) == r;
    assert Apply(j, Cut({"a", "b"})) == r;
  }

  /** UNION a c joins everything; SPLIT a,b undoes it, and changes nothing where a and b are already apart from c. */
  lemma Drawings()
    ensures Redraws(APART, JOIN, JOINED.adj) && Redraws(APART, PART, APART.adj) && Redraws(JOINED, PART, APART.adj)
    ensures Accepts(Shown(APART), JOIN) && Accepts(Shown(APART), PART)
  {
    ApartIsGraph();
    JoinedIsGraph();
    ApartShows();
    JoinedShows();
    hide Shown, Graph, Apply, Meaning, OpOk, Accepts, Abs, RELATION_APART, RELATION_JOINED, OpKnown;
    Effects();
  }

  // ---------------------------------------------------------------- the states of the run

  /** One client: its space, its graph, the server's space for it and the messages under way. */
  datatype Side = Side(client: Space, graph: Figure, space: Space, up: seq<Msg>, down: seq<Msg>)

  function Both(p: Side, q: Side): System {
    System(map[1 := p.client, 2 := q.client], map[1 := p.graph, 2 := q.graph], map[1 := p.space, 2 := q.space],
           map[1 := p.up, 2 := q.up], map[1 := p.down, 2 := q.down])
  }

  function Did(op: Op, id: OpId): (s: Space)
    ensures |s.rows| == 1 && |s.alongIds| == 1 && Shape(s) && Last(s).lo == 0 && Hi(Last(s)) == 1
  {
    Extend(FreshSpace(TORN), op, Update(TORN, op), id)
  }

  function Got(s: Space, x: nat, op: Op, id: OpId): (t: Space)
    requires Shape(s) && Last(s).lo <= x <= Hi(Last(s))
    ensures Shape(t)
  {
    InsertKeepsShape(s, x, op, id);
    Insert(s, x, op, id)
  }

  const FRESH := FreshSpace(TORN)
  const UNION_MSG := Msg(JOIN, BY_FIRST, {}, 0)
  const SPLIT_MSG := Msg(PART, BY_SECOND, {}, 0)
  const FORWARDED := Msg(PART, BY_SECOND, {BY_FIRST}, 1)

  function FirstDid(): Side { Side(Did(JOIN, BY_FIRST), JOINED, FRESH, [UNION_MSG], []) }
  function SecondDid(): Side { Side(Did(PART, BY_SECOND), APART, FRESH, [SPLIT_MSG], []) }
  function FirstTaken(): Side { Side(Did(JOIN, BY_FIRST), JOINED, Got(FRESH, 0, JOIN, BY_FIRST), [], []) }
  function SecondHasUnion(): Side { Side(Did(PART, BY_SECOND), APART, Did(JOIN, BY_FIRST), [SPLIT_MSG], [UNION_MSG]) }

  function FirstHasSplit(): Side {
    var b := Got(FRESH, 0, JOIN, BY_FIRST);
    Side(Did(JOIN, BY_FIRST), JOINED, Extend(b, PART, Update(Final(b), PART), BY_SECOND), [], [FORWARDED])
  }

  function SecondTaken(): Side {
    Side(Did(PART, BY_SECOND), APART, Got(Did(JOIN, BY_FIRST), 0, PART, BY_SECOND), [], [UNION_MSG])
  }

  function FirstDone(): Side {
    FirstHasSplit().(client := Got(Did(JOIN, BY_FIRST), 1, PART, BY_SECOND), graph := APART, down := [])
  }

  function SecondDone(): Side {
    SecondTaken().(client := Got(Did(PART, BY_SECOND), 0, JOIN, BY_FIRST), graph := JOINED, down := [])
  }

  function Fresh(): Side { Side(FRESH, APART, FRESH, [], []) }

  // ---------------------------------------------------------------- weaving through rows of at most one operation

  lemma OneStep(c: Content, d: Content, f: Op, op: Op)
    ensures var w := Weave([c, d], [f], op);
            && w.across[1] == Transform(c, op, f) && w.cells[1] == Update(d, Transform(c, op, f))
  {
    assert [c, d][1..] == [d] && [f][1..] == [];
  }

  lemma NoStep(d: Content, op: Op)
    ensures Weave([d], [], op).cells == [Update(d, op)] && Weave([d], [], op).across == [op]
  {
  }

  lemma OneRow(op: Op, id: OpId)
    ensures var r := Last(Did(op, id));
            && r.cells == [TORN, Update(TORN, op)] && r.along == [op]
            && r.cells[0..] == r.cells && r.along[0..] == r.along && r.cells[1..] == [Update(TORN, op)] && r.along[1..] == []
  {
  }

  /** What the operations become on the way. */
  lemma OnTheWay()
    ensures Transformed(FRESH, 0, JOIN) == JOIN && Transformed(Did(JOIN, BY_FIRST), 0, PART) == PART
    ensures Transformed(Did(PART, BY_SECOND), 0, JOIN) == JOIN && Transformed(Did(JOIN, BY_FIRST), 1, PART) == PART
  {
    hide Update, TORN, Weave, CpltClass, Did;
    var c := TORN;
    assert Last(FRESH).cells[0..] == [c] && Last(FRESH).along[0..] == [];
    NoStep(c, JOIN);
    OneRow(JOIN, BY_FIRST);
    OneRow(PART, BY_SECOND);
    OneStep(c, Update(c, JOIN), JOIN, PART);
    NoStep(Update(c, JOIN), PART);
    OneStep(c, Update(c, PART), PART, JOIN);
    UnionUnchanged();
  }

  lemma UnionUnchanged()
    ensures Transform(TORN, JOIN, PART) == JOIN && Transform(TORN, PART, JOIN) == PART
  {
    hide TORN, CpltClass;
    assert |["a"]| == 1 && |["a", "b"]| == 2 && |["c"]| == 1;
  }

  /** The last text of a client that did `op` and then got `op2`, from before or after it. */
  lemma LastText(op: Op, id: OpId, x: nat, op2: Op, id2: OpId)
    requires x <= 1
    ensures Final(Got(Did(op, id), x, op2, id2)) == Update(Update(TORN, op), if x == 0 then Transform(TORN, op2, op) else op2)
  {
    hide Update, TORN, Weave, Did, Transform;
    OneRow(op, id);
    if x == 0 {
      OneStep(TORN, Update(TORN, op), op, op2);
    } else {
      NoStep(Update(TORN, op), op2);
    }
  }

  lemma LastTexts()
    ensures Final(FirstDone().client) == UnionFirst(TORN, JOIN.a, JOIN.b, ["a", "b"])
    ensures Final(SecondDone().client) == SplitFirst(TORN, JOIN.a, JOIN.b, ["a", "b"])
  {
    hide Update, TORN, Did, Transform, Final, Got, Extend;
    LastText(JOIN, BY_FIRST, 1, PART, BY_SECOND);
    LastText(PART, BY_SECOND, 0, JOIN, BY_FIRST);
    UnionUnchanged();
  }

  // ---------------------------------------------------------------- step by step

  lemma TornTexts()
    ensures Prints(APART, TORN) && Prints(JOINED, Update(TORN, JOIN)) && Prints(APART, Update(TORN, PART))
  {
    TornIsOk();
    ApartShows();
    Drawings();
    ApartIsGraph();
    hide Update, TORN, Abs, Valid, Shown, Graph;
    UpdateMeans(TORN, JOIN);
    UpdateMeans(TORN, PART);
  }

  lemma FirstMessages()
    ensures Outgoing(FRESH, JOIN, BY_FIRST) == UNION_MSG && Outgoing(FRESH, PART, BY_SECOND) == SPLIT_MSG
    ensures NextId(1, FRESH) == BY_FIRST && NextId(2, FRESH) == BY_SECOND
    ensures Outgoing(Got(FRESH, 0, JOIN, BY_FIRST), PART, BY_SECOND) == FORWARDED
  {
    hide Weave, TORN, Update;
    assert AllIds(FRESH) == {};
    assert AllIds(Got(FRESH, 0, JOIN, BY_FIRST)) == {BY_FIRST};
  }

  // What the steps do to the two sides, whatever these are.

  ghost predicate Enterable(s: Space, u: seq<Msg>) {
    Shape(s) && u != [] && Last(s).lo <= u[0].mark <= Hi(Last(s))
  }

  ghost function Executes(p: Side, at: NodeId, op: Op, adj: Adj, content: Content): Side
    requires Shape(p.client)
  {
    p.(client := Extend(p.client, op, content, NextId(at, p.client)), graph := p.graph.(adj := adj),
       up := p.up + [Outgoing(p.client, op, NextId(at, p.client))])
  }

  ghost function Takes(p: Side): Side
    requires Enterable(p.space, p.up)
  {
    p.(space := Insert(p.space, p.up[0].mark, p.up[0].op, p.up[0].id), up := p.up[1..])
  }

  ghost function Forwards(q: Side, f: Op, id: OpId): Side
    requires Shape(q.space)
  {
    q.(space := Extend(q.space, f, Update(Final(q.space), f), id), down := q.down + [Outgoing(q.space, f, id)])
  }

  ghost function Receives(p: Side, adj: Adj): Side
    requires Enterable(p.client, p.down)
  {
    p.(client := Insert(p.client, p.down[0].mark, p.down[0].op, p.down[0].id), graph := p.graph.(adj := adj), down := p.down[1..])
  }

  lemma LinksAreKeyed(s: System)
    requires Links(s)
    ensures WellKeyed(s)
  {
  }

  lemma TwoKeys<T>(m: map<NodeId, T>, a: T, b: T)
    requires m.Keys == {1, 2} && m[1] == a && m[2] == b
    ensures m == map[1 := a, 2 := b]
  {
  }

  lemma SidesOf(s: System, p: Side, q: Side)
    requires s.clients == map[1 := p.client, 2 := q.client] && s.graphs == map[1 := p.graph, 2 := q.graph]
    requires s.spaces == map[1 := p.space, 2 := q.space] && s.up == map[1 := p.up, 2 := q.up] && s.down == map[1 := p.down, 2 := q.down]
    ensures s == Both(p, q)
  {
  }

  lemma FirstAccepts(p: Side, q: Side, op: Op, adj: Adj, content: Content)
    requires WellKeyed(Both(p, q)) && |p.graph.adj| == |p.graph.data| == |adj|
    requires Accepts(Shown(p.graph), op) && Redraws(p.graph, op, adj) && Prints(Figure(p.graph.data, adj), content)
    ensures Shape(p.client) && Enabled(Both(p, q), LocalOp(1, op, adj, content))
    ensures Step(Both(p, q), LocalOp(1, op, adj, content)) == Both(Executes(p, 1, op, adj, content), q)
  {
    hide Shape, Extend, Outgoing, Shown, Accepts, Redraws, Prints, NextId;
    var s := Both(p, q);
    assert s.clients[1] == p.client && s.graphs[1] == p.graph && s.up[1] == p.up;
    var t := Step(s, LocalOp(1, op, adj, content));
    var p', q' := Executes(p, 1, op, adj, content), q;
    TwoKeys(t.clients, p'.client, q'.client);
    TwoKeys(t.graphs, p'.graph, q'.graph);
    TwoKeys(t.up, p'.up, q'.up);
    SidesOf(t, p', q');
  }

  lemma SecondAccepts(p: Side, q: Side, op: Op, adj: Adj, content: Content)
    requires WellKeyed(Both(p, q)) && |q.graph.adj| == |q.graph.data| == |adj|
    requires Accepts(Shown(q.graph), op) && Redraws(q.graph, op, adj) && Prints(Figure(q.graph.data, adj), content)
    ensures Shape(q.client) && Enabled(Both(p, q), LocalOp(2, op, adj, content))
    ensures Step(Both(p, q), LocalOp(2, op, adj, content)) == Both(p, Executes(q, 2, op, adj, content))
  {
    hide Shape, Extend, Outgoing, Shown, Accepts, Redraws, Prints, NextId;
    var s := Both(p, q);
    assert s.clients[2] == q.client && s.graphs[2] == q.graph && s.up[2] == q.up;
    var t := Step(s, LocalOp(2, op, adj, content));
    var p', q' := p, Executes(q, 2, op, adj, content);
    TwoKeys(t.clients, p'.client, q'.client);
    TwoKeys(t.graphs, p'.graph, q'.graph);
    TwoKeys(t.up, p'.up, q'.up);
    SidesOf(t, p', q');
  }

  lemma ServerTakesFirst(p: Side, q: Side)
    requires Links(Both(p, q)) && p.up != []
    ensures Enterable(p.space, p.up) && Shape(q.space) && Enabled(Both(p, q), ServerTakes(1))
    ensures Step(Both(p, q), ServerTakes(1)) == Both(Takes(p), Forwards(q, Transformed(p.space, p.up[0].mark, p.up[0].op), p.up[0].id))
  {
    hide Update, Shape, Insert, Extend, Transformed, LinkedAt, SameIds, ServerStep, Outgoing, Final, Last, Hi;
    var s := Both(p, q);
    assert s.spaces[1] == p.space && s.spaces[2] == q.space && s.up[1] == p.up && s.down[2] == q.down;
    ServerStepTakes(s, 1);
    var t, p', q' := Taken(s, 1), Takes(p), Forwards(q, Transformed(p.space, p.up[0].mark, p.up[0].op), p.up[0].id);
    TwoKeys(t.spaces, p'.space, q'.space);
    TwoKeys(t.down, p'.down, q'.down);
    TwoKeys(t.up, p'.up, q'.up);
    SidesOf(t, p', q');
  }

  lemma ServerTakesSecond(p: Side, q: Side)
    requires Links(Both(p, q)) && q.up != []
    ensures Enterable(q.space, q.up) && Shape(p.space) && Enabled(Both(p, q), ServerTakes(2))
    ensures Step(Both(p, q), ServerTakes(2)) == Both(Forwards(p, Transformed(q.space, q.up[0].mark, q.up[0].op), q.up[0].id), Takes(q))
  {
    hide Update, Shape, Insert, Extend, Transformed, LinkedAt, SameIds, ServerStep, Outgoing, Final, Last, Hi;
    var s := Both(p, q);
    assert s.spaces[1] == p.space && s.spaces[2] == q.space && s.up[2] == q.up && s.down[1] == p.down;
    ServerStepTakes(s, 2);
    var t, p', q' := Taken(s, 2), Forwards(p, Transformed(q.space, q.up[0].mark, q.up[0].op), q.up[0].id), Takes(q);
    TwoKeys(t.spaces, p'.space, q'.space);
    TwoKeys(t.down, p'.down, q'.down);
    TwoKeys(t.up, p'.up, q'.up);
    SidesOf(t, p', q');
  }

  lemma ClientMayTake(s: System, at: NodeId, adj: Adj)
    requires Links(s) && at in s.clients && s.down[at] != []
    requires Enterable(s.clients[at], s.down[at]) ==>
             Redraws(s.graphs[at], Transformed(s.clients[at], s.down[at][0].mark, s.down[at][0].op), adj)
    ensures Enterable(s.clients[at], s.down[at])
    ensures Enabled(s, ClientTakes(at, adj)) && Step(s, ClientTakes(at, adj)) == Delivered(s, at, adj)
  {
    hide Linked, Transformed, Redraws, Shape, Insert, Locate;
    assert LinkedAt(s, at);
    ClientFindsContext(at, s.clients[at], s.spaces[at], s.up[at], s.down[at]);
    ClientTakesDelivers(s, at, adj);
  }

  lemma FirstTakes(p: Side, q: Side, adj: Adj)
    requires Links(Both(p, q)) && p.down != [] && |p.graph.adj| == |p.graph.data|
    requires Enterable(p.client, p.down) ==> Redraws(p.graph, Transformed(p.client, p.down[0].mark, p.down[0].op), adj)
    ensures Enterable(p.client, p.down) && Enabled(Both(p, q), ClientTakes(1, adj))
    ensures Step(Both(p, q), ClientTakes(1, adj)) == Both(Receives(p, adj), q)
  {
    hide LinkedAt, SameIds, Transformed, Redraws, Shape, Insert, Step, Enabled, Last, Hi, Links;
    var s := Both(p, q);
    LinksAreKeyed(s);
    assert s.clients[1] == p.client && s.graphs[1] == p.graph && s.down[1] == p.down;
    ClientMayTake(s, 1, adj);
    var t := Delivered(s, 1, adj);
    var p', q' := Receives(p, adj), q;
    TwoKeys(t.clients, p'.client, q'.client);
    TwoKeys(t.graphs, p'.graph, q'.graph);
    TwoKeys(t.down, p'.down, q'.down);
    SidesOf(t, p', q');
  }

  lemma SecondTakes(p: Side, q: Side, adj: Adj)
    requires Links(Both(p, q)) && q.down != [] && |q.graph.adj| == |q.graph.data|
    requires Enterable(q.client, q.down) ==> Redraws(q.graph, Transformed(q.client, q.down[0].mark, q.down[0].op), adj)
    ensures Enterable(q.client, q.down) && Enabled(Both(p, q), ClientTakes(2, adj))
    ensures Step(Both(p, q), ClientTakes(2, adj)) == Both(p, Receives(q, adj))
  {
    hide LinkedAt, SameIds, Transformed, Redraws, Shape, Insert, Step, Enabled, Last, Hi, Links;
    var s := Both(p, q);
    LinksAreKeyed(s);
    assert s.clients[2] == q.client && s.graphs[2] == q.graph && s.down[2] == q.down;
    ClientMayTake(s, 2, adj);
    var t := Delivered(s, 2, adj);
    var p', q' := p, Receives(q, adj);
    TwoKeys(t.clients, p'.client, q'.client);
    TwoKeys(t.graphs, p'.graph, q'.graph);
    TwoKeys(t.down, p'.down, q'.down);
    SidesOf(t, p', q');
  }

  // The steps of this run.

  lemma FirstExecutes()
    requires WellKeyed(Both(Fresh(), Fresh()))
    ensures var s, e := Both(Fresh(), Fresh()), LocalOp(1, JOIN, JOINED.adj, Update(TORN, JOIN));
            Enabled(s, e) && Step(s, e) == Both(FirstDid(), Fresh())
  {
    hide Update, TORN, Shown, Redraws, Prints, Accepts, WellKeyed, Enabled, Step, Both, Outgoing, NextId;
    TornTexts();
    Drawings();
    FirstMessages();
    FirstAccepts(Fresh(), Fresh(), JOIN, JOINED.adj, Update(TORN, JOIN));
    assert Executes(Fresh(), 1, JOIN, JOINED.adj, Update(TORN, JOIN)) == FirstDid();
  }

  lemma SecondExecutes()
    requires WellKeyed(Both(FirstDid(), Fresh()))
    ensures var s, e := Both(FirstDid(), Fresh()), LocalOp(2, PART, APART.adj, Update(TORN, PART));
            Enabled(s, e) && Step(s, e) == Both(FirstDid(), SecondDid())
  {
    hide Update, TORN, Shown, Redraws, Prints, Accepts, WellKeyed, Enabled, Step, Both, FirstDid, Outgoing, NextId;
    TornTexts();
    Drawings();
    FirstMessages();
    SecondAccepts(FirstDid(), Fresh(), PART, APART.adj, Update(TORN, PART));
    assert Executes(Fresh(), 2, PART, APART.adj, Update(TORN, PART)) == SecondDid();
  }

  lemma ServerTakesUnion()
    requires Links(Both(FirstDid(), SecondDid()))
    ensures var s, e := Both(FirstDid(), SecondDid()), ServerTakes(1);
            Enabled(s, e) && Step(s, e) == Both(FirstTaken(), SecondHasUnion())
  {
    hide Update, TORN, Links, Step, Enabled, Insert, Transformed, Both;
    OnTheWay();
    FirstMessages();
    ServerTakesFirst(FirstDid(), SecondDid());
    assert Final(FRESH) == TORN;
    assert Takes(FirstDid()) == FirstTaken() && Forwards(SecondDid(), JOIN, BY_FIRST) == SecondHasUnion();
  }

  lemma ServerTakesSplit()
    requires Links(Both(FirstTaken(), SecondHasUnion()))
    ensures var s, e := Both(FirstTaken(), SecondHasUnion()), ServerTakes(2);
            Enabled(s, e) && Step(s, e) == Both(FirstHasSplit(), SecondTaken())
  {
    hide Update, TORN, Links, Step, Enabled, Insert, Transformed, Both, Extend, Outgoing;
    OnTheWay();
    FirstMessages();
    ServerTakesSecond(FirstTaken(), SecondHasUnion());
    assert Takes(SecondHasUnion()) == SecondTaken() && Forwards(FirstTaken(), PART, BY_SECOND) == FirstHasSplit();
  }

  lemma SecondReceives()
    requires Links(Both(FirstHasSplit(), SecondTaken()))
    ensures var s, e := Both(FirstHasSplit(), SecondTaken()), ClientTakes(2, JOINED.adj);
            Enabled(s, e) && Step(s, e) == Both(FirstHasSplit(), SecondDone())
  {
    hide Update, TORN, Links, Step, Enabled, Insert, Transformed, Both, Redraws;
    OnTheWay();
    Drawings();
    SecondTakes(FirstHasSplit(), SecondTaken(), JOINED.adj);
    assert Receives(SecondTaken(), JOINED.adj) == SecondDone();
  }

  lemma FirstReceives()
    requires Links(Both(FirstHasSplit(), SecondDone()))
    ensures var s, e := Both(FirstHasSplit(), SecondDone()), ClientTakes(1, APART.adj);
            Enabled(s, e) && Step(s, e) == Both(FirstDone(), SecondDone())
  {
    hide Update, TORN, Links, Step, Enabled, Insert, Transformed, Both, Redraws, SecondDone;
    OnTheWay();
    Drawings();
    FirstTakes(FirstHasSplit(), SecondDone(), APART.adj);
    assert Receives(FirstHasSplit(), APART.adj) == FirstDone();
  }

  lemma RunsAppend(s0: System, run: seq<Event>, s: System, e: Event)
    requires Runs(s0, run, s) && Enabled(s, e)
    ensures Runs(s0, run + [e], Step(s, e))
    decreases |run|
  {
    hide Enabled, Step;
    if run == [] {
      assert (run + [e])[1..] == [];
    } else {
      RunsAppend(Step(s0, run[0]), run[1..], s, e);
      assert (run + [e])[1..] == run[1..] + [e];
    }
  }

  ghost predicate At(run: seq<Event>, s: System) {
    Runs(Start({1, 2}, APART, TORN), run, s) && Links(s)
  }

  lemma Continue(run: seq<Event>, s: System, e: Event)
    requires At(run, s) && Enabled(s, e)
    ensures At(run + [e], Step(s, e))
  {
    hide Runs, Enabled, Step, Links, Start;
    RunsAppend(Start({1, 2}, APART, TORN), run, s, e);
    StepKeepsLinks(s, e);
  }

  lemma Beginning()
    ensures Init(Start({1, 2}, APART, TORN)) && Start({1, 2}, APART, TORN) == Both(Fresh(), Fresh())
    ensures At([], Both(Fresh(), Fresh()))
  {
    hide Prints, Graph, Shape, Shown, TORN, Links, Init;
    ApartIsGraph();
    TornTexts();
    StartIsInit({1, 2}, APART, TORN);
    var s := Start({1, 2}, APART, TORN);
    assert s == Both(Fresh(), Fresh());
    InitIsLinked(s);
  }

  lemma WholeRun() returns (run: seq<Event>)
    ensures At(run, Both(FirstDone(), SecondDone()))
  {
    hide Both, Fresh, FirstDid, SecondDid, FirstTaken, SecondHasUnion, FirstHasSplit, SecondTaken, FirstDone, SecondDone;
    hide Update, Start, Enabled, Step, Runs, WellKeyed, TORN;
    Beginning();
    FirstExecutes();
    run := [];
    Continue(run, Both(Fresh(), Fresh()), LocalOp(1, JOIN, JOINED.adj, Update(TORN, JOIN)));
    run := run + [LocalOp(1, JOIN, JOINED.adj, Update(TORN, JOIN))];
    SecondExecutes();
    Continue(run, Both(FirstDid(), Fresh()), LocalOp(2, PART, APART.adj, Update(TORN, PART)));
    run := run + [LocalOp(2, PART, APART.adj, Update(TORN, PART))];
    ServerTakesUnion();
    Continue(run, Both(FirstDid(), SecondDid()), ServerTakes(1));
    run := run + [ServerTakes(1)];
    ServerTakesSplit();
    Continue(run, Both(FirstTaken(), SecondHasUnion()), ServerTakes(2));
    run := run + [ServerTakes(2)];
    SecondReceives();
    Continue(run, Both(FirstHasSplit(), SecondTaken()), ClientTakes(2, JOINED.adj));
    run := run + [ClientTakes(2, JOINED.adj)];
    FirstReceives();
    Continue(run, Both(FirstHasSplit(), SecondDone()), ClientTakes(1, APART.adj));
    run := run + [ClientTakes(1, APART.adj)];
  }

  lemma EndsApart()
    ensures Shown(APART) != Shown(JOINED) && Abs(Final(FirstDone().client)) != Abs(Final(SecondDone().client))
  {
    hide Abs, Shown, Update, TORN, FirstDone, SecondDone, UnionFirst, SplitFirst, Accepts, Apply, Meaning;
    LastTexts();
    SetSplitDiverges();
    ApartShows();
    JoinedShows();
    Effects();
  }

  /** A run from one value in which both clients accept and execute both operations, nothing is left in flight, and the
      clients answer queries from different relations. */
  lemma ClientsDiverge() returns (run: seq<Event>, s: System)
    ensures Init(Start({1, 2}, APART, TORN)) && Runs(Start({1, 2}, APART, TORN), run, s)
    ensures WellKeyed(s) && s.clients.Keys == {1, 2}
    ensures s.up[1] == [] && s.down[1] == [] && s.up[2] == [] && s.down[2] == []
    ensures AllIds(s.clients[1]) == AllIds(s.clients[2]) && Shown(s.graphs[1]) != Shown(s.graphs[2])
    ensures Abs(Final(s.clients[1])) != Abs(Final(s.clients[2]))
  {
    hide Runs, Init, Shown, Abs, Start, Links, Final, FirstDone, SecondDone, AllIds, Both, WellKeyed;
    run := WholeRun();
    s := Both(FirstDone(), SecondDone());
    Beginning();
    EndsApart();
    Ended();
    SidesAre(FirstDone(), SecondDone());
    SameOperations(s);
  }

  lemma SidesAre(p: Side, q: Side)
    ensures var s := Both(p, q);
      && s.clients.Keys == {1, 2} && s.graphs.Keys == {1, 2} && s.up.Keys == {1, 2} && s.down.Keys == {1, 2}
      && s.clients[1] == p.client && s.clients[2] == q.client && s.graphs[1] == p.graph && s.graphs[2] == q.graph
      && s.up[1] == p.up && s.up[2] == q.up && s.down[1] == p.down && s.down[2] == q.down
  {
  }

  lemma Ended()
    ensures var p, q := FirstDone(), SecondDone();
            p.up == [] && p.down == [] && q.up == [] && q.down == [] && p.graph == APART && q.graph == JOINED
  {
  }

  lemma SameOperations(s: System)
    requires Links(s) && 1 in s.clients && 2 in s.clients
    requires s.up.Keys == s.down.Keys == s.clients.Keys && s.up[1] == [] && s.down[1] == [] && s.up[2] == [] && s.down[2] == []
    ensures WellKeyed(s) && AllIds(s.clients[1]) == AllIds(s.clients[2])
  {
    hide Linked, AllIds;
    assert LinkedAt(s, 1) && LinkedAt(s, 2) && SameIds(s, 1, 2);
    QuietPairAgrees(s.clients[1], s.spaces[1]);
    QuietPairAgrees(s.clients[2], s.spaces[2]);
  }
}
