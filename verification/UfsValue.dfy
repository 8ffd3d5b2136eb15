/** The value a client keeps: the graph that FIND and UMEMBERS read. UINIT builds it, an operation is checked against
    it, changes it, and is followed by printing it. */
module UfsValue {
  import opened Base
  import opened UfsPartition
  import opened UfsTransform
  import opened UfsGraph
  import opened UfsPrint

  datatype Figure = Figure(data: seq<Elem>, adj: Adj)

  /** locateVex. */
  function VertexOf(data: seq<Elem>, e: Elem): (i: int)
    ensures -1 <= i < |data|
    ensures i >= 0 ==> data[i] == e && e in data
    ensures i < 0 ==> e !in data
  {
    if data == [] then -1
    else if data[0] == e then 0
    else
      var i := VertexOf(data[1..], e);
      assert data == [data[0]] + data[1..];
      if i < 0 then -1 else i + 1
  }

  /** The relation a client's queries are answered from. */
  ghost function Shown(f: Figure): Eqv
    requires |f.adj| == |f.data|
  {
    map e | e in ToSet(f.data) :: ClassNames(f.data, f.adj, VertexOf(f.data, e))
  }

  /** What updateVerticeUfs may print for the graph. */
  ghost predicate Prints(f: Figure, c: Content)
    requires |f.adj| == |f.data|
  {
    Valid(c) && if Lone(f.data) then c == Chopped(f.data) else Abs(c) == Shown(f)
  }

  /** What checkArgv accepts: names of different elements of one class, and next to a "*" one name only. */
  ghost predicate Accepts(r: Eqv, op: Op) {
    OpOk(r, op) && (op.Union? && (op.a.Star? || op.b.Star?) ==> !Multi(op.a) && !Multi(op.b))
  }

  predicate ArgKnown(data: seq<Elem>, a: Arg) {
    a.Names? ==> a.tokens != [] && forall t :: t in a.tokens ==> t in data
  }

  predicate OpKnown(data: seq<Elem>, op: Op) {
    match op
    case Union(a, b) => ArgKnown(data, a) && ArgKnown(data, b)
    case Split(s) => ArgKnown(data, s)
  }

  /** What unionProc and splitProc promise: an operation whose names are vertices leaves a clique graph of them, and
      one that is acceptable in the graph has its effect on the relation shown. */
  ghost predicate Redraws(f: Figure, op: Op, adj: Adj)
    requires |f.adj| == |f.data|
  {
    && |adj| == |f.adj|
    && (Graph(f.data, f.adj) && OpKnown(f.data, op) ==> Graph(f.data, adj))
    && (Graph(f.data, f.adj) && OpOk(Shown(f), op) ==> Shown(Figure(f.data, adj)) == Apply(Shown(f), Meaning(Shown(f), op)))
  }

  // ---------------------------------------------------------------- the graph and the relation

  lemma NamedOnce(data: seq<Elem>, x: nat)
    requires DistinctNames(data) && x < |data|
    ensures VertexOf(data, data[x]) == x
  {
  }

  lemma ShownIsDepicted(f: Figure, r: Eqv)
    requires Graph(f.data, f.adj)
    ensures Depicts(f.data, f.adj, r) <==> Shown(f) == r
  {
    hide Cliques, ClassNames;
    forall x | 0 <= x < |f.data|
      ensures f.data[x] in Shown(f) && Shown(f)[f.data[x]] == ClassNames(f.data, f.adj, x)
    {
      GraphNames(f);
      NamedOnce(f.data, x);
    }
    if Depicts(f.data, f.adj, r) {
      forall e | e in r
        ensures e in Shown(f) && r[e] == Shown(f)[e]
      {
        var x :| 0 <= x < |f.data| && f.data[x] == e;
      }
    }
  }

  lemma GraphNames(f: Figure)
    requires Graph(f.data, f.adj)
    ensures DistinctNames(f.data)
  {
  }

  /** The relation of a one-element value is what it is, whatever the operations. */
  lemma OneVertexShows(f: Figure)
    requires |f.data| == 1 == |f.adj|
    ensures Shown(f) == map[f.data[0] := {f.data[0]}]
  {
    assert ToSet(f.data) == {f.data[0]};
    assert ClassNames(f.data, f.adj, 0) == {f.data[0]};
  }

  function Vertices(data: seq<Elem>, tokens: seq<Elem>): (vs: seq<nat>)
    requires forall t :: t in tokens ==> t in data
    ensures |vs| == |tokens| && forall k :: 0 <= k < |vs| ==> vs[k] < |data| && data[vs[k]] == tokens[k]
  {
    seq(|tokens|, k requires 0 <= k < |tokens| => assert tokens[k] in data; VertexOf(data, tokens[k]))
  }

  lemma ShownClass(f: Figure, x: nat, y: nat)
    requires Graph(f.data, f.adj) && x < |f.data| && y < |f.data|
    ensures f.data[x] in Shown(f) && (f.data[y] in Shown(f)[f.data[x]] <==> y == x || Edge(f.adj, x, y))
  {
    NamedOnce(f.data, x);
    NamesDecide(f.data, f.adj, x, y);
  }

  /** Names of one class are vertices of one class. */
  lemma NamesOfOneClass(f: Figure, a: Arg)
    requires Graph(f.data, f.adj) && a.Names? && ArgOk(Shown(f), a)
    ensures ArgKnown(f.data, a) && OneClass(f.adj, Vertices(f.data, a.tokens))
  {
    hide Class, Shown, Cliques;
    forall t | t in a.tokens
      ensures t in f.data
    {
      ClassIsKnown(f, a.tokens[0], t);
    }
    var vs := Vertices(f.data, a.tokens);
    forall v | v in vs
      ensures v in Class(f.adj, vs[0])
    {
      var k :| 0 <= k < |vs| && vs[k] == v;
      assert a.tokens[k] in a.tokens;
      ShownClass(f, vs[0], v);
      EdgeIsClass(f.adj, vs[0], v);
    }
  }

  lemma EdgeIsClass(adj: Adj, x: nat, y: nat)
    requires x < |adj|
    ensures y in Class(adj, x) <==> y == x || Edge(adj, x, y)
  {
  }

  lemma ClassIsKnown(f: Figure, e: Elem, t: Elem)
    requires |f.data| == |f.adj| && e in Shown(f) && t in Shown(f)[e]
    ensures t in f.data
  {
  }

  lemma UnionRedraws(f: Figure, adj: Adj, op: Op)
    requires Graph(f.data, f.adj) && Graph(f.data, adj) && OpOk(Shown(f), op) && op.Union? && op.a.Names? && op.b.Names?
    requires ArgKnown(f.data, op.a) && ArgKnown(f.data, op.b)
    requires var us, ws := Vertices(f.data, op.a.tokens), Vertices(f.data, op.b.tokens);
             OneClass(f.adj, us) && OneClass(f.adj, ws) ==> Joined(f.adj, adj, us[0], ws[0])
    ensures Redraws(f, op, adj)
  {
    hide Shown, Cliques, Joined, Class, Depicts, Apply, Meaning;
    var r := Shown(f);
    NamesOfOneClass(f, op.a);
    NamesOfOneClass(f, op.b);
    ShownIsDepicted(f, r);
    UnionDepicts(f.data, f.adj, adj, Vertices(f.data, op.a.tokens)[0], Vertices(f.data, op.b.tokens)[0], r, op);
    ShownIsDepicted(Figure(f.data, adj), Apply(r, Meaning(r, op)));
  }

  lemma SplitRedraws(f: Figure, adj: Adj, op: Op)
    requires Graph(f.data, f.adj) && Graph(f.data, adj) && OpOk(Shown(f), op) && op.Split?
    requires ArgKnown(f.data, op.s)
    requires var vs := Vertices(f.data, op.s.tokens);
             OneClass(f.adj, vs) ==> TakenOut(f.adj, adj, set v | v in vs)
    ensures Redraws(f, op, adj)
  {
    hide Shown, Cliques, TakenOut, Class, Depicts, Apply, Meaning;
    var r, vs := Shown(f), Vertices(f.data, op.s.tokens);
    NamesOfOneClass(f, op.s);
    ShownIsDepicted(f, r);
    NamesOfVertices(f.data, op.s.tokens);
    SplitDepicts(f.data, f.adj, adj, (set v | v in vs), r, op);
    ShownIsDepicted(Figure(f.data, adj), Apply(r, Meaning(r, op)));
  }

  lemma NamesOfVertices(data: seq<Elem>, tokens: seq<Elem>)
    requires forall t :: t in tokens ==> t in data
    ensures var s := set v | v in Vertices(data, tokens);
            (forall v :: v in s ==> v < |data|) && ToSet(tokens) == set x | x in s && x < |data| :: data[x]
  {
    var vs := Vertices(data, tokens);
    var s := set v | v in vs;
    forall e | e in ToSet(tokens)
      ensures e in set x | x in s && x < |data| :: data[x]
    {
      var k :| 0 <= k < |tokens| && tokens[k] == e;
      assert vs[k] in s;
    }
  }

  /** The pairwise test of isConnected decides whether the names belong to one class. */
  lemma ConnectedIsOneClass(f: Figure, tokens: seq<Elem>)
    requires Graph(f.data, f.adj) && tokens != [] && forall t :: t in tokens ==> t in f.data
    ensures AllConnected(f.adj, Vertices(f.data, tokens)) <==> ArgOk(Shown(f), Names(tokens))
  {
    hide Shown, Class;
    var vs := Vertices(f.data, tokens);
    if AllConnected(f.adj, vs) {
      forall p, q | 0 <= p < q < |tokens|
        ensures tokens[p] != tokens[q]
      {
        assert Edge(f.adj, vs[p], vs[q]);
      }
      ShownClass(f, vs[0], vs[0]);
      forall t | t in tokens
        ensures t in Shown(f)[tokens[0]]
      {
        var q :| 0 <= q < |tokens| && tokens[q] == t;
        ShownClass(f, vs[0], vs[q]);
        assert q > 0 ==> Edge(f.adj, vs[0], vs[q]);
      }
    } else if ArgOk(Shown(f), Names(tokens)) {
      var p, q :| 0 <= p < q < |vs| && !Edge(f.adj, vs[p], vs[q]);
      assert tokens[p] in tokens && tokens[q] in tokens;
      ShownClass(f, vs[0], vs[p]);
      ShownClass(f, vs[0], vs[q]);
      Neighbours(f.adj, vs[0], vs[p], vs[q]);
      assert false;
    }
  }

  lemma Neighbours(adj: Adj, x: nat, p: nat, q: nat)
    requires Cliques(adj) && (p == x || Edge(adj, x, p)) && (q == x || Edge(adj, x, q)) && p != q
    ensures Edge(adj, p, q)
  {
    if p != x {
      assert Edge(adj, p, x);
    }
  }

  ghost predicate AllConnected(adj: Adj, vs: seq<nat>) {
    forall p, q :: 0 <= p < q < |vs| ==> Edge(adj, vs[p], vs[q])
  }

  // ---------------------------------------------------------------- the client's value

  class Value {
    var data: seq<Elem>
    const graph: CudGraph

    ghost function View(): (f: Figure)
      reads this, graph
    {
      Figure(data, graph.adj)
    }

    ghost predicate WellDrawn()
      reads this, graph
    {
      Graph(data, graph.adj)
    }

    /** UINIT: the vertices of the text's classes, each class linked pair by pair. */
    constructor (c: Content)
      requires Valid(c)
      ensures WellDrawn() && fresh(graph) && Shown(View()) == Abs(c)
    {
      data := [];
      graph := new CudGraph(0);
      new;
      var i := 0;
      while i < |c|
        invariant 0 <= i <= |c| && fresh(graph) && WellDrawn()
        invariant Depicts(data, graph.adj, Abs(c[..i]))
      {
        AddClass(c, i);
        i := i + 1;
      }
      assert c[..i] == c;
      ShownIsDepicted(View(), Abs(c));
    }

    method AddClass(c: Content, i: nat)
      requires Valid(c) && i < |c| && Depicts(data, graph.adj, Abs(c[..i]))
      modifies this, graph
      ensures Depicts(data, graph.adj, Abs(c[..i + 1]))
    {
      hide Class, Depicts, Abs, Valid;
      var lo := |data|;
      ghost var f := View();
      DepictedGraph(f, Abs(c[..i]));
      NoEmptyClass(c, i);
      graph.AddVertices(|c[i]|);
      ghost var a1 := graph.adj;
      data := data + c[i];
      graph.LinkAll(lo);
      OldClasses(f.adj, a1, lo);
      ClassAdded(f, c, i, graph.adj);
    }

    /** The text is printed from the graph: after UINIT and after every operation of a local user. */
    method Print() returns (c: Content)
      requires WellDrawn()
      ensures Prints(View(), c)
    {
      c := UpdateVerticeUfs(data, graph.adj);
      ShownIsDepicted(View(), Abs(c));
    }

    /** existElements and isConnected. */
    method CheckNames(tokens: seq<Elem>) returns (ok: bool)
      requires WellDrawn()
      ensures ok <==> ArgOk(Shown(View()), Names(tokens))
    {
      hide Shown, Class;
      if tokens == [] {
        return false;
      }
      var i := 0;
      while i < |tokens|
        invariant 0 <= i <= |tokens| && forall t :: t in tokens[..i] ==> t in data
      {
        if tokens[i] !in data {
          UnknownIsRefused(View(), tokens, i);
          return false;
        }
        assert tokens[..i + 1] == tokens[..i] + [tokens[i]];
        i := i + 1;
      }
      assert tokens[..i] == tokens;
      ConnectedIsOneClass(View(), tokens);
      ok := IsConnected(Vertices(data, tokens));
    }

    method IsConnected(vs: seq<nat>) returns (ok: bool)
      ensures ok <==> AllConnected(graph.adj, vs)
    {
      var i := 0;
      while i < |vs|
        invariant 0 <= i <= |vs| && forall p, q :: 0 <= p < i && p < q < |vs| ==> Edge(graph.adj, vs[p], vs[q])
      {
        var j := i + 1;
        while j < |vs|
          invariant i < j <= |vs| && forall q :: i < q < j ==> Edge(graph.adj, vs[i], vs[q])
        {
          if !Edge(graph.adj, vs[i], vs[j]) {
            return false;
          }
          j := j + 1;
        }
        i := i + 1;
      }
      return true;
    }

    /** checkArgv. */
    method CheckArgv(op: Op) returns (ok: bool)
      requires WellDrawn()
      ensures ok <==> Accepts(Shown(View()), op)
    {
      hide Shown, ArgOk, Cliques;
      match op {
        case Split(s) =>
          if s.Star? {
            return false;
          }
          ok := CheckNames(s.tokens);
        case Union(a, b) =>
          if (a.Star? || b.Star?) && (Multi(a) || Multi(b)) {
            return false;
          }
          var okA, okB := true, true;
          StarIsOk(Shown(View()));
          if a.Names? {
            okA := CheckNames(a.tokens);
          }
          if b.Names? {
            okB := CheckNames(b.tokens);
          }
          return okA && okB;
      }
    }

    /** unionProc and splitProc on names. */
    method Execute(op: Op)
      requires WellDrawn() && OpKnown(data, op)
      modifies graph
      ensures WellDrawn() && data == old(data) && Redraws(old(View()), op, graph.adj)
    {
      hide Shown, Class, Joined, TakenOut, Apply;
      ghost var f := View();
      match op {
        case Split(s) =>
          if s.Star? {
            NothingRedrawn(f, op);
            return;
          }
          graph.SplitProc(Vertices(data, s.tokens));
          if OpOk(Shown(f), op) {
            SplitRedraws(f, graph.adj, op);
          }
        case Union(a, b) =>
          if a.Star? || b.Star? {
            NothingRedrawn(f, op);
            return;
          }
          graph.UnionProc(Vertices(data, a.tokens), Vertices(data, b.tokens));
          if OpOk(Shown(f), op) {
            UnionRedraws(f, graph.adj, op);
          }
      }
    }

    /** The local part of controlAlg: refuse the operation, or execute it and print the new value. */
    method ExecuteLocal(op: Op) returns (c: Option<Content>)
      requires WellDrawn()
      modifies graph
      ensures WellDrawn() && data == old(data)
      ensures c.Some? <==> Accepts(Shown(old(View())), op)
      ensures c.Some? ==> Redraws(old(View()), op, graph.adj) && Prints(View(), c.value)
      ensures c.None? ==> graph.adj == old(graph.adj)
    {
      hide Shown, Cliques, Redraws, Prints;
      var ok := CheckArgv(op);
      if !ok {
        return None;
      }
      OkIsKnown(View(), op);
      Execute(op);
      var text := Print();
      return Some(text);
    }
  }

  lemma DepictedGraph(f: Figure, r: Eqv)
    requires Depicts(f.data, f.adj, r)
    ensures Graph(f.data, f.adj) && |f.adj| == |f.data| && r.Keys == ToSet(f.data)
  {
  }

  lemma NoEmptyClass(c: Content, i: nat)
    requires Valid(c) && i < |c|
    ensures c[i] != []
  {
  }

  lemma OldClasses(a: Adj, b: Adj, lo: nat)
    requires |a| == lo <= |b| && forall x :: 0 <= x < lo ==> b[x] == a[x]
    ensures forall x :: 0 <= x < lo ==> Class(b, x) == Class(a, x)
  {
  }

  /** One more class, linked among itself: the text with that class added. */
  lemma ClassAdded(f: Figure, c: Content, i: nat, adj: Adj)
    requires Valid(c) && i < |c| && Depicts(f.data, f.adj, Abs(c[..i]))
    requires Cliques(adj) && |adj| == |f.adj| + |c[i]|
    requires forall x :: 0 <= x < |f.adj| ==> Class(adj, x) == Class(f.adj, x)
    requires forall x :: |f.adj| <= x < |adj| ==> Spans(adj, x, |f.adj|, |adj|)
    ensures Depicts(f.data + c[i], adj, Abs(c[..i + 1]))
  {
    hide Class, Abs, Valid, Cliques, Spans, ClassNames;
    var data := f.data + c[i];
    ElemsGrow(c, i);
    NewNames(f, c, i);
    assert ToSet(data) == ToSet(f.data) + ToSet(c[i]);
    forall x | 0 <= x < |data|
      ensures data[x] in Abs(c[..i + 1]) && Abs(c[..i + 1])[data[x]] == ClassNames(data, adj, x)
    {
      if x < |f.data| {
        assert data[x] == f.data[x];
        OldNames(f, c[i], adj, x);
        OldMember(c, i, data[x]);
      } else {
        SpannedNames(f.data, c[i], adj, x);
        assert data[x] == c[i][x - |f.data|];
        PrefixValid(c, i + 1);
        ClassOfMember(c[..i + 1], i, data[x]);
      }
    }
  }

  lemma PrefixValid(c: Content, i: nat)
    requires Valid(c) && i <= |c|
    ensures Valid(c[..i])
  {
  }

  lemma ElemsGrow(c: Content, i: nat)
    requires i < |c|
    ensures Abs(c[..i + 1]).Keys == Abs(c[..i]).Keys + ToSet(c[i])
  {
    forall e | e in Elems(c[..i]) || e in c[i]
      ensures e in Elems(c[..i + 1])
    {
      if e in c[i] {
        assert c[..i + 1][i] == c[i];
      } else {
        var k :| 0 <= k < |c[..i]| && e in c[..i][k];
        assert c[..i + 1][k] == c[..i][k];
      }
    }
    forall e | e in Elems(c[..i + 1])
      ensures e in Elems(c[..i]) || e in c[i]
    {
      var k :| 0 <= k < |c[..i + 1]| && e in c[..i + 1][k];
      if k < i {
        assert c[..i][k] == c[..i + 1][k];
      }
    }
  }

  lemma OldMember(c: Content, i: nat, e: Elem)
    requires Valid(c) && i < |c| && e in Abs(c[..i])
    ensures e in Abs(c[..i + 1]) && Abs(c[..i + 1])[e] == Abs(c[..i])[e]
  {
    var k :| 0 <= k < |c[..i]| && e in c[..i][k];
    PrefixValid(c, i);
    PrefixValid(c, i + 1);
    assert c[..i][k] == c[..i + 1][k];
    ClassOfMember(c[..i], k, e);
    ClassOfMember(c[..i + 1], k, e);
  }

  lemma NewNames(f: Figure, c: Content, i: nat)
    requires Valid(c) && i < |c| && Depicts(f.data, f.adj, Abs(c[..i]))
    ensures DistinctNames(f.data + c[i])
  {
    var data := f.data + c[i];
    forall x, y | 0 <= x < y < |data|
      ensures data[x] != data[y]
    {
      if x < |f.data| <= y {
        assert f.data[x] in Abs(c[..i]);
        var k :| 0 <= k < |c[..i]| && f.data[x] in c[..i][k];
        assert c[..i][k] == c[k] && data[y] == c[i][y - |f.data|];
      } else if |f.data| <= x {
        assert data[x] == c[i][x - |f.data|] && data[y] == c[i][y - |f.data|];
      }
    }
  }

  lemma OldNames(f: Figure, more: seq<Elem>, adj: Adj, x: nat)
    requires Graph(f.data, f.adj) && x < |f.data| && |adj| >= |f.adj| && Class(adj, x) == Class(f.adj, x)
    ensures ClassNames(f.data + more, adj, x) == ClassNames(f.data, f.adj, x)
  {
    forall y | y in Class(f.adj, x)
      ensures y < |f.data| && (f.data + more)[y] == f.data[y]
    {
      EdgeIsClass(f.adj, x, y);
    }
  }

  lemma SpannedNames(data: seq<Elem>, more: seq<Elem>, adj: Adj, x: nat)
    requires |adj| == |data| + |more| && Spans(adj, x, |data|, |adj|)
    ensures ClassNames(data + more, adj, x) == ToSet(more)
  {
    forall e | e in ToSet(more)
      ensures e in ClassNames(data + more, adj, x)
    {
      var k :| 0 <= k < |more| && more[k] == e;
      assert |data| + k in Class(adj, x) && (data + more)[|data| + k] == e;
    }
  }

  lemma StarIsOk(r: Eqv)
    ensures ArgOk(r, Star)
  {
  }

  lemma NothingRedrawn(f: Figure, op: Op)
    requires Graph(f.data, f.adj) && (op.Split? ==> op.s.Star?) && (op.Union? ==> op.a.Star? || op.b.Star?)
    ensures Redraws(f, op, f.adj)
  {
  }

  lemma OkIsKnown(f: Figure, op: Op)
    requires Graph(f.data, f.adj) && OpOk(Shown(f), op)
    ensures OpKnown(f.data, op)
  {
    hide Shown, Cliques, OneClass;
    match op
    case Split(s) => NamesOfOneClass(f, s);
    case Union(a, b) =>
      if a.Names? {
        NamesOfOneClass(f, a);
      }
      if b.Names? {
        NamesOfOneClass(f, b);
      }
  }

  lemma UnknownIsRefused(f: Figure, tokens: seq<Elem>, i: nat)
    requires Graph(f.data, f.adj) && i < |tokens| && tokens[i] !in f.data
    ensures !ArgOk(Shown(f), Names(tokens))
  {
    if ArgOk(Shown(f), Names(tokens)) {
      ClassIsKnown(f, tokens[0], tokens[i]);
    }
  }
}
