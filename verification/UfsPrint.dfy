/** Printing the graph of a union-find value as text, class by class, and what the graph operations do to the relation
    that the text stands for. */
module UfsPrint {
  import opened UfsPartition
  import opened UfsGraph

  ghost predicate DistinctNames(data: seq<Elem>) {
    forall x, y :: 0 <= x < |data| && 0 <= y < |data| && data[x] == data[y] ==> x == y
  }

  function NamesAt(data: seq<Elem>, xs: seq<nat>): seq<Elem>
    requires forall k :: 0 <= k < |xs| ==> xs[k] < |data|
  {
    seq(|xs|, k requires 0 <= k < |xs| => data[xs[k]])
  }

  ghost predicate Graph(data: seq<Elem>, adj: Adj) {
    |adj| == |data| && Cliques(adj) && DistinctNames(data)
  }

  ghost function ClassNames(data: seq<Elem>, adj: Adj, x: nat): set<Elem>
    requires x < |adj|
  {
    set y | y in Class(adj, x) && y < |data| :: data[y]
  }

  /** The relation the graph stands for. */
  ghost predicate Depicts(data: seq<Elem>, adj: Adj, r: Eqv) {
    && Graph(data, adj) && r.Keys == ToSet(data)
    && forall x :: 0 <= x < |data| ==> data[x] in r && r[data[x]] == ClassNames(data, adj, x)
  }

  /** A vertex is printed when no vertex before it is in its class. */
  ghost predicate Leader(adj: Adj, i: nat) {
    forall j :: 0 <= j < i ==> !Edge(adj, i, j)
  }

  /** The vertex and its neighbours, in adjacency order. */
  ghost predicate PrintsClass(data: seq<Elem>, adj: Adj, i: nat, class_: seq<Elem>)
    requires Graph(data, adj)
  {
    && i < |adj| && |class_| == |adj[i]| + 1 && class_[0] == data[i]
    && forall k :: 0 <= k < |adj[i]| ==> adj[i][k] < |data| && class_[k + 1] == data[adj[i][k]]
  }

  /** Classes printed so far: those of the leaders below i, in order. */
  ghost predicate Printed(data: seq<Elem>, adj: Adj, c: Content, leaders: seq<nat>, i: nat)
    requires Graph(data, adj)
  {
    && |c| == |leaders| && i <= |adj|
    && (forall k :: 0 <= k < |c| ==> leaders[k] < i && Leader(adj, leaders[k]) && PrintsClass(data, adj, leaders[k], c[k]))
    && (forall k, l :: 0 <= k < l < |leaders| ==> leaders[k] < leaders[l])
    && (forall x :: 0 <= x < i && Leader(adj, x) ==> x in leaders)
  }

  /** The value is a single element whose name has several letters. */
  predicate Lone(data: seq<Elem>) {
    |data| == 1 && |data[0]| >= 2
  }

  function Chopped(data: seq<Elem>): Content
    requires Lone(data)
  {
    [[data[0][..|data[0]| - 1]]]
  }

  /** updateVerticeUfs on the tokens of the text. A lone element of more than one letter loses its last letter. */
  method UpdateVerticeUfs(data: seq<Elem>, adj: Adj) returns (c: Content)
    requires Graph(data, adj)
    ensures Valid(c) && (Depicts(data, adj, Abs(c)) <==> !Lone(data))
    ensures Lone(data) ==> c == Chopped(data)
  {
    hide Class, Cliques;
    c := [];
    ghost var leaders: seq<nat> := [];
    var i := 0;
    while i < |data|
      invariant 0 <= i <= |data| && Printed(data, adj, c, leaders, i)
    {
      var j := 0;
      while j < i && !Edge(adj, i, j)
        invariant 0 <= j <= i && forall k :: 0 <= k < j ==> !Edge(adj, i, k)
      {
        j := j + 1;
      }
      if j == i {
        NeighboursExist(data, adj, i);
        c := c + [[data[i]] + NamesAt(data, adj[i])];
        leaders := leaders + [i];
      }
      i := i + 1;
    }
    if Lone(data) {
      LoneElement(data, adj, c, leaders);
      c := [[c[0][0][..|c[0][0]| - 1]]];
      ChoppedIsAnother(data, adj, c);
    } else {
      PrintedIsValid(data, adj, c, leaders);
      PrintedDepicts(data, adj, c, leaders);
    }
  }

  lemma NeighboursExist(data: seq<Elem>, adj: Adj, i: nat)
    requires Graph(data, adj) && i < |adj|
    ensures forall k :: 0 <= k < |adj[i]| ==> adj[i][k] < |data| && adj[i][k] != i
  {
    forall k | 0 <= k < |adj[i]|
      ensures adj[i][k] < |data| && adj[i][k] != i
    {
      assert Edge(adj, i, adj[i][k]);
    }
  }

  lemma LoneElement(data: seq<Elem>, adj: Adj, c: Content, leaders: seq<nat>)
    requires Graph(data, adj) && |data| == 1 && Printed(data, adj, c, leaders, 1)
    ensures c == [[data[0]]]
  {
    assert Leader(adj, 0) && 0 in leaders;
    IncreasingBound(leaders, 1);
    NeighboursExist(data, adj, 0);
    LoneVertex(adj[0]);
    assert |c| == 1 && PrintsClass(data, adj, leaders[0], c[0]) && leaders[0] == 0;
    assert c[0] == [data[0]];
  }

  lemma ChoppedIsAnother(data: seq<Elem>, adj: Adj, c: Content)
    requires Lone(data) && c == Chopped(data)
    ensures Valid(c) && !Depicts(data, adj, Abs(c))
  {
    assert c[0][0] in c[0];
    AbsKnows(c, c[0][0]);
    assert c[0][0] in Elems(c) && |c[0][0]| < |data[0]|;
    assert ToSet(data) == {data[0]};
  }

  lemma {:induction false} IncreasingBound(xs: seq<nat>, n: nat)
    requires forall k, l :: 0 <= k < l < |xs| ==> xs[k] < xs[l]
    requires forall k :: 0 <= k < |xs| ==> xs[k] < n
    ensures |xs| <= n
    decreases |xs|
  {
    if |xs| > 0 {
      IncreasingBound(xs[..|xs| - 1], xs[|xs| - 1]);
    }
  }

  lemma LoneVertex(xs: seq<nat>)
    requires |xs| > 0 ==> xs[0] < 1 && xs[0] != 0
    ensures xs == []
  {
  }

  /** The class of x, named, is what is printed for its leader. */
  lemma PrintedNames(data: seq<Elem>, adj: Adj, i: nat, class_: seq<Elem>)
    requires Graph(data, adj) && PrintsClass(data, adj, i, class_)
    ensures ToSet(class_) == ClassNames(data, adj, i)
  {
    forall e | e in ToSet(class_)
      ensures e in ClassNames(data, adj, i)
    {
      var k :| 0 <= k < |class_| && class_[k] == e;
      if k > 0 {
        assert adj[i][k - 1] in adj[i] && data[adj[i][k - 1]] == e;
      }
    }
    forall e | e in ClassNames(data, adj, i)
      ensures e in ToSet(class_)
    {
      var y :| y in Class(adj, i) && y < |data| && data[y] == e;
      if y != i {
        var k :| 0 <= k < |adj[i]| && adj[i][k] == y;
        assert class_[k + 1] == e;
      }
    }
  }

  lemma {:induction false} LeaderOf(adj: Adj, x: nat) returns (l: nat)
    requires Cliques(adj) && x < |adj|
    ensures l <= x && Leader(adj, l) && l in Class(adj, x)
  {
    if Leader(adj, x) {
      l := x;
    } else {
      var j: nat :| j < x && Edge(adj, x, j);
      ClassesPartition(adj, x, j);
      l := LeaderOf(adj, j);
    }
  }

  /** Leaders of one class are one. */
  lemma LeadersDiffer(adj: Adj, a: nat, b: nat)
    requires Cliques(adj) && a < |adj| && b < |adj| && Leader(adj, a) && Leader(adj, b) && b in Class(adj, a)
    ensures a == b
  {
    assert a != b ==> Edge(adj, a, b) && Edge(adj, b, a);
  }

  /** Where a name of the printed text comes from. */
  lemma PrintedVertex(data: seq<Elem>, adj: Adj, i: nat, class_: seq<Elem>, p: nat) returns (x: nat)
    requires Graph(data, adj) && PrintsClass(data, adj, i, class_) && p < |class_|
    ensures x < |data| && class_[p] == data[x] && x in Class(adj, i) && x == if p == 0 then i else adj[i][p - 1]
  {
    x := if p == 0 then i else adj[i][p - 1];
  }

  lemma PrintedIsValid(data: seq<Elem>, adj: Adj, c: Content, leaders: seq<nat>)
    requires Graph(data, adj) && Printed(data, adj, c, leaders, |adj|)
    ensures Valid(c)
  {
    forall i, p, j, q | 0 <= i < |c| && 0 <= p < |c[i]| && 0 <= j < |c| && 0 <= q < |c[j]| && c[i][p] == c[j][q]
      ensures i == j && p == q
    {
      var a, b := leaders[i], leaders[j];
      var x := PrintedVertex(data, adj, a, c[i], p);
      var y := PrintedVertex(data, adj, b, c[j], q);
      assert x == y;
      ClassesPartition(adj, a, x);
      ClassesPartition(adj, b, x);
      LeadersDiffer(adj, a, b);
      assert i == j;
      SamePlace(adj, a, p, q);
    }
  }

  lemma SamePlace(adj: Adj, a: nat, p: nat, q: nat)
    requires Cliques(adj) && a < |adj| && p <= |adj[a]| && q <= |adj[a]|
    requires (if p == 0 then a else adj[a][p - 1]) == (if q == 0 then a else adj[a][q - 1])
    ensures p == q
  {
    assert NoRepeats(adj[a]);
    if p > 0 {
      assert Edge(adj, a, adj[a][p - 1]);
    }
    if q > 0 {
      assert Edge(adj, a, adj[a][q - 1]);
    }
  }

  lemma PrintedDepicts(data: seq<Elem>, adj: Adj, c: Content, leaders: seq<nat>)
    requires Graph(data, adj) && Printed(data, adj, c, leaders, |adj|) && Valid(c)
    ensures Depicts(data, adj, Abs(c))
  {
    hide Abs, Valid, Cliques;
    forall x | 0 <= x < |data|
      ensures data[x] in Abs(c) && Abs(c)[data[x]] == ClassNames(data, adj, x)
    {
      VertexPrinted(data, adj, c, leaders, x);
    }
    forall e | e in Abs(c)
      ensures e in ToSet(data)
    {
      ElementIsVertex(data, adj, c, leaders, e);
    }
  }

  lemma VertexPrinted(data: seq<Elem>, adj: Adj, c: Content, leaders: seq<nat>, x: nat)
    requires Graph(data, adj) && Printed(data, adj, c, leaders, |adj|) && Valid(c) && x < |data|
    ensures data[x] in Abs(c) && Abs(c)[data[x]] == ClassNames(data, adj, x)
  {
    hide Abs, Valid, Cliques, Class;
    var l := LeaderOf(adj, x);
    var k :| 0 <= k < |leaders| && leaders[k] == l;
    PrintedNames(data, adj, l, c[k]);
    ClassesPartition(adj, x, l);
    SelfIn(data, adj, l, x);
    ClassOfMember(c, k, data[x]);
    assert ClassNames(data, adj, l) == ClassNames(data, adj, x);
    AbsKnows(c, data[x]);
  }

  lemma SelfIn(data: seq<Elem>, adj: Adj, l: nat, x: nat)
    requires Graph(data, adj) && x < |data| && l < |data| && Class(adj, l) == Class(adj, x)
    ensures data[x] in ClassNames(data, adj, l)
  {
  }

  lemma AbsKnows(c: Content, e: Elem)
    ensures e in Elems(c) <==> e in Abs(c)
  {
  }

  lemma ElementIsVertex(data: seq<Elem>, adj: Adj, c: Content, leaders: seq<nat>, e: Elem)
    requires Graph(data, adj) && Printed(data, adj, c, leaders, |adj|) && e in Abs(c)
    ensures e in ToSet(data)
  {
    var k, p :| 0 <= k < |c| && 0 <= p < |c[k]| && c[k][p] == e;
    var x := PrintedVertex(data, adj, leaders[k], c[k], p);
  }

  // ----- the operations -----

  lemma NamesOfUnion(data: seq<Elem>, a: Adj, b: Adj, i: nat, j: nat, x: nat)
    requires Graph(data, a) && Graph(data, b) && i < |a| && j < |a| && x < |a| && Joined(a, b, i, j)
    ensures ClassNames(data, b, x) ==
            var u := ClassNames(data, a, i) + ClassNames(data, a, j);
            if data[x] in u then u else ClassNames(data, a, x)
  {
    NamesDecide(data, a, i, x);
    NamesDecide(data, a, j, x);
  }

  lemma NamesDecide(data: seq<Elem>, a: Adj, i: nat, x: nat)
    requires Graph(data, a) && i < |a| && x < |a|
    ensures data[x] in ClassNames(data, a, i) <==> x in Class(a, i)
  {
  }

  /** UNION on the graph is UNION on the relation. */
  lemma UnionDepicts(data: seq<Elem>, a: Adj, b: Adj, i: nat, j: nat, r: Eqv, op: Op)
    requires Depicts(data, a, r) && i < |a| && j < |a| && Joined(a, b, i, j)
    requires op.Union? && op.a.Names? && op.b.Names? && op.a.tokens != [] && op.b.tokens != []
    requires op.a.tokens[0] == data[i] && op.b.tokens[0] == data[j]
    ensures Depicts(data, b, Apply(r, Meaning(r, op)))
  {
    hide Class, Cliques, ClassNames;
    forall x | 0 <= x < |data|
      ensures Apply(r, Meaning(r, op))[data[x]] == ClassNames(data, b, x)
    {
      NamesOfUnion(data, a, b, i, j, x);
      SameRelation(data, a, r, i, x);
      SameRelation(data, a, r, j, x);
    }
  }

  lemma SameRelation(data: seq<Elem>, a: Adj, r: Eqv, i: nat, x: nat)
    requires Depicts(data, a, r) && i < |a| && x < |a|
    ensures data[x] in r[data[i]] <==> r[data[x]] == r[data[i]]
  {
    NamesDecide(data, a, i, x);
    if x in Class(a, i) {
      ClassesPartition(a, i, x);
    } else {
      SelfIn(data, a, x, x);
    }
  }

  /** SPLIT on the graph is SPLIT on the relation. */
  lemma SplitDepicts(data: seq<Elem>, a: Adj, b: Adj, s: set<nat>, r: Eqv, op: Op)
    requires Depicts(data, a, r) && TakenOut(a, b, s) && forall x :: x in s ==> x < |a|
    requires op.Split? && op.s.Names? && ToSet(op.s.tokens) == set x | x in s && x < |data| :: data[x]
    ensures Depicts(data, b, Apply(r, Meaning(r, op)))
  {
    var cut := ToSet(op.s.tokens);
    forall x | 0 <= x < |data|
      ensures Apply(r, Meaning(r, op))[data[x]] == ClassNames(data, b, x)
    {
      CutNames(data, a, b, s, cut, x);
    }
  }

  lemma CutNames(data: seq<Elem>, a: Adj, b: Adj, s: set<nat>, cut: set<Elem>, x: nat)
    requires Graph(data, a) && Graph(data, b) && TakenOut(a, b, s) && x < |data| && forall y :: y in s ==> y < |a|
    requires cut == set y | y in s && y < |data| :: data[y]
    ensures ClassNames(data, b, x) == if data[x] in cut then cut else ClassNames(data, a, x) - cut
  {
    assert data[x] in cut <==> x in s;
    if x !in s {
      forall y: nat | y < |data|
        ensures data[y] in ClassNames(data, b, x) <==> data[y] in ClassNames(data, a, x) - cut
      {
        NamesDecide(data, a, x, y);
        NamesDecide(data, b, x, y);
      }
    }
  }
}
