/** The graph a UfsRedis server keeps for a union-find value: one vertex per element, an adjacency list per
    vertex, and every class a clique. UNION links two cliques, SPLIT takes a vertex set out of one. */
module UfsGraph {

  type Adj = seq<seq<nat>>

  /** existEdge. */
  predicate Edge(adj: Adj, x: nat, y: nat) {
    x < |adj| && y in adj[x]
  }

  ghost function Class(adj: Adj, x: nat): set<nat>
    requires x < |adj|
  {
    {x} + set y | y in adj[x]
  }

  ghost predicate NoRepeats(s: seq<nat>) {
    forall p, q :: 0 <= p < q < |s| ==> s[p] != s[q]
  }

  /** Adjacency lists without loops or repetitions, every edge in both directions. */
  ghost predicate Simple(adj: Adj) {
    && (forall x :: 0 <= x < |adj| ==> NoRepeats(adj[x]))
    && (forall x: nat, y: nat :: Edge(adj, x, y) ==> y < |adj| && x != y && Edge(adj, y, x))
  }

  /** Edges join exactly the different vertices of a class. */
  ghost predicate Cliques(adj: Adj) {
    && Simple(adj)
    && (forall x: nat, y: nat, z: nat :: Edge(adj, x, y) && Edge(adj, y, z) && x != z ==> Edge(adj, x, z))
  }

  /** Whoever is in the class of x has the same class. */
  lemma ClassesPartition(adj: Adj, x: nat, y: nat)
    requires Cliques(adj) && x < |adj| && y in Class(adj, x)
    ensures y < |adj| && Class(adj, y) == Class(adj, x)
  {
    if y != x {
      assert Edge(adj, x, y) && Edge(adj, y, x);
      forall z | z in Class(adj, y)
        ensures z in Class(adj, x)
      {
        if z != x && z != y {
          assert Edge(adj, y, z);
          assert Edge(adj, x, z);
        }
      }
      forall z | z in Class(adj, x)
        ensures z in Class(adj, y)
      {
        if z != x && z != y {
          assert Edge(adj, x, z);
          assert Edge(adj, y, z);
        }
      }
    }
  }

  /** Edges are only added, only between members of `c`, and in both directions. */
  ghost predicate GrownWithin(before: Adj, adj: Adj, c: set<nat>) {
    && |adj| == |before| && Simple(adj)
    && (forall x: nat, y: nat :: Edge(before, x, y) ==> Edge(adj, x, y))
    && (forall x: nat, y: nat :: Edge(adj, x, y) && !Edge(before, x, y) ==> x in c && y in c)
  }

  lemma GrownTransitive(a: Adj, b: Adj, d: Adj, c: set<nat>)
    requires GrownWithin(a, b, c) && GrownWithin(b, d, c)
    ensures GrownWithin(a, d, c)
  {
  }

  /** Linking two cliques completely leaves cliques: their union, and the others as they were. */
  lemma LinkedCliques(adj: Adj, adj': Adj, i: nat, j: nat)
    requires Cliques(adj) && i < |adj| && j < |adj|
    requires GrownWithin(adj, adj', Class(adj, i) + Class(adj, j))
    requires forall x, y :: x in Class(adj, i) && y in Class(adj, j) && x != y ==> Edge(adj', x, y)
    ensures Cliques(adj')
    ensures forall x :: 0 <= x < |adj| ==>
              Class(adj', x) == if x in Class(adj, i) + Class(adj, j) then Class(adj, i) + Class(adj, j) else Class(adj, x)
  {
    var c := Class(adj, i) + Class(adj, j);
    forall x: nat, y: nat | x in c && y in c && x != y
      ensures Edge(adj', x, y)
    {
      InsideLinked(adj, adj', i, j, x, y);
    }
    forall x: nat, y: nat | x in c && Edge(adj', x, y)
      ensures y in c
    {
      LinkedStaysInside(adj, adj', i, j, x, y);
    }
    forall x | 0 <= x < |adj|
      ensures Class(adj', x) == if x in c then c else Class(adj, x)
    {
      forall y: nat
        ensures y in Class(adj', x) <==> y in if x in c then c else Class(adj, x)
      {
        assert y in Class(adj', x) <==> y == x || Edge(adj', x, y);
        assert y in Class(adj, x) <==> y == x || Edge(adj, x, y);
      }
    }
    forall x: nat, y: nat, z: nat | Edge(adj', x, y) && Edge(adj', y, z) && x != z
      ensures Edge(adj', x, z)
    {
      if y !in c {
        assert Edge(adj', y, x);
        assert Edge(adj, x, y) && Edge(adj, y, z);
      } else {
        assert Edge(adj', y, x);
      }
    }
  }

  lemma InsideLinked(adj: Adj, adj': Adj, i: nat, j: nat, x: nat, y: nat)
    requires Cliques(adj) && i < |adj| && j < |adj|
    requires GrownWithin(adj, adj', Class(adj, i) + Class(adj, j))
    requires forall x, y :: x in Class(adj, i) && y in Class(adj, j) && x != y ==> Edge(adj', x, y)
    requires x in Class(adj, i) + Class(adj, j) && y in Class(adj, i) + Class(adj, j) && x != y
    ensures Edge(adj', x, y)
  {
    if x in Class(adj, i) && y in Class(adj, i) {
      ClassesPartition(adj, i, x);
      assert y in Class(adj, x);
      assert Edge(adj, x, y);
    } else if x in Class(adj, j) && y in Class(adj, j) {
      ClassesPartition(adj, j, x);
      assert y in Class(adj, x);
      assert Edge(adj, x, y);
    } else if x in Class(adj, j) {
      assert Edge(adj', y, x);
    }
  }

  lemma LinkedStaysInside(adj: Adj, adj': Adj, i: nat, j: nat, x: nat, y: nat)
    requires Cliques(adj) && i < |adj| && j < |adj|
    requires GrownWithin(adj, adj', Class(adj, i) + Class(adj, j))
    requires x in Class(adj, i) + Class(adj, j) && Edge(adj', x, y)
    ensures y in Class(adj, i) + Class(adj, j)
  {
    if Edge(adj, x, y) {
      var k := if x in Class(adj, i) then i else j;
      ClassesPartition(adj, k, x);
      assert y in Class(adj, x);
    }
  }

  class CudGraph {
    var adj: Adj

    constructor (n: nat)
      ensures Cliques(adj) && |adj| == n && forall x :: 0 <= x < n ==> adj[x] == []
    {
      adj := seq(n, _ => []);
    }

    /** createEdge: puts the missing directions at the head of the lists. */
    method CreateEdge(v1: nat, v2: nat)
      requires Simple(adj) && v1 < |adj| && v2 < |adj|
      modifies this
      ensures GrownWithin(old(adj), adj, {v1, v2})
      ensures v1 != v2 ==> Edge(adj, v1, v2) && Edge(adj, v2, v1)
    {
      if v1 == v2 || (Edge(adj, v1, v2) && Edge(adj, v2, v1)) {
        return;
      }
      if !Edge(adj, v1, v2) {
        adj := adj[v1 := [v2] + adj[v1]];
      }
      if !Edge(adj, v2, v1) {
        adj := adj[v2 := [v1] + adj[v2]];
      }
      assert forall x: nat, y: nat :: Edge(adj, x, y) <==> Edge(old(adj), x, y) || (x == v1 && y == v2) || (x == v2 && y == v1);
    }

    /** One of the two loop nests of createLinks: every neighbour of `i` is linked to `j` and to every
        neighbour of `j`. The lists grow at their heads only, so walking them from a fixed node sees what
        they held then. */
    method LinkNeighbours(i: nat, j: nat, ghost c: set<nat>)
      requires Simple(adj) && i < |adj| && j < |adj| && (i == j || Edge(adj, j, i))
      requires i in c && j in c && (forall x: nat :: Edge(adj, i, x) || Edge(adj, j, x) ==> x in c)
      modifies this
      ensures GrownWithin(old(adj), adj, c)
      ensures forall x :: x in old(adj)[i] ==> LinkedTo(adj, x, j, old(adj)[j])
    {
      var ps := adj[i];
      var k := 0;
      while k < |ps|
        invariant 0 <= k <= |ps| && GrownWithin(old(adj), adj, c)
        invariant forall m :: 0 <= m < k ==> LinkedTo(adj, ps[m], j, old(adj)[j])
      {
        ghost var js := adj[j];
        assert Edge(old(adj), i, ps[k]);
        assert forall y :: y in old(adj)[j] ==> Edge(old(adj), j, y);
        assert forall y :: y in old(adj)[j] ==> y in js;
        LinkOne(ps[k], j, c);
        k := k + 1;
      }
    }

    method LinkOne(p: nat, j: nat, ghost c: set<nat>)
      requires Simple(adj) && p < |adj| && j < |adj| && p in c && j in c
      requires adj[j] != [] && forall y :: y in adj[j] ==> y in c
      modifies this
      ensures GrownWithin(old(adj), adj, c) && LinkedTo(adj, p, j, old(adj)[j])
    {
      var qs := adj[j];
      var l := 0;
      while l < |qs|
        invariant 0 <= l <= |qs| && GrownWithin(old(adj), adj, c)
        invariant LinkedTo(adj, p, if l == 0 then p else j, qs[..l])
      {
        assert Edge(old(adj), j, qs[l]);
        if p != j {
          CreateEdge(p, j);
        }
        CreateEdge(p, qs[l]);
        assert qs[..l + 1] == qs[..l] + [qs[l]];
        l := l + 1;
      }
      assert qs[..l] == qs;
    }

    /** createLinks: the classes of `i` and `j` become one clique, nothing else changes. */
    method CreateLinks(i: nat, j: nat)
      requires Cliques(adj) && i < |adj| && j < |adj|
      modifies this
      ensures Joined(old(adj), adj, i, j)
    {
      ghost var c := Class(adj, i) + Class(adj, j);
      ghost var a0 := adj;
      assert forall x: nat :: Edge(a0, i, x) || Edge(a0, j, x) ==> x in c;
      CreateEdge(i, j);
      ghost var a1 := adj;
      assert GrownWithin(a0, a1, c);
      LinkNeighbours(i, j, c);
      ghost var a2 := adj;
      GrownTransitive(a0, a1, a2, c);
      assert forall x: nat :: Edge(a2, i, x) || Edge(a2, j, x) ==> x in c;
      LinkNeighbours(j, i, c);
      GrownTransitive(a0, a2, adj, c);
      AllCrossed(a0, a1, a2, adj, i, j);
      LinkedCliques(a0, adj, i, j);
    }

    method AddVertices(n: nat)
      requires Cliques(adj)
      modifies this
      ensures Cliques(adj) && |adj| == |old(adj)| + n
      ensures forall x :: 0 <= x < |old(adj)| ==> adj[x] == old(adj)[x]
      ensures forall x :: |old(adj)| <= x < |adj| ==> adj[x] == []
    {
      adj := adj + seq(n, _ => []);
      assert forall x: nat, y: nat :: Edge(adj, x, y) <==> Edge(old(adj), x, y);
    }

    /** The pairs of a class that UINIT links, here the vertices from `lo` on. */
    method LinkAll(lo: nat)
      requires Cliques(adj) && lo < |adj| && forall x :: lo <= x < |adj| ==> adj[x] == []
      modifies this
      ensures Cliques(adj) && |adj| == |old(adj)|
      ensures forall x :: 0 <= x < lo ==> Class(adj, x) == Class(old(adj), x)
      ensures forall x :: lo <= x < |adj| ==> Spans(adj, x, lo, |adj|)
    {
      ghost var a0 := adj;
      var n := |adj|;
      IsolatedStart(adj, lo);
      var k := lo;
      while k < n
        invariant lo <= k <= n && Cliques(adj) && |adj| == n && Gathered(a0, adj, lo, if k == lo then lo + 1 else n)
      {
        var m := lo;
        while m < n
          invariant lo <= m <= n && Cliques(adj) && |adj| == n
          invariant Gathered(a0, adj, lo, if k > lo then n else if m == lo then lo + 1 else m)
        {
          if m != k {
            ghost var b := adj;
            CreateLinks(k, m);
            GatherMore(a0, b, adj, lo, if k > lo then n else m, k, m);
          }
          m := m + 1;
        }
        k := k + 1;
      }
      GatheredAll(a0, adj, lo);
    }

    /** removeAdjEdge: `v` keeps only its edges to `keep`, in both directions. */
    method RemoveAdjEdge(v: nat, keep: set<nat>)
      requires Simple(adj) && v < |adj|
      modifies this
      ensures Simple(adj) && |adj| == |old(adj)|
      ensures forall x: nat, y: nat :: Edge(adj, x, y) <==>
                Edge(old(adj), x, y) && (x == v ==> y in keep) && (y == v ==> x in keep)
    {
      ghost var a0 := adj;
      if adj[v] == [] {
        return;
      }
      adj := adj[v := Filter(adj[v], y => y in keep)];
      ghost var a1 := adj;
      assert forall x: nat, y: nat :: Edge(a1, x, y) <==> Edge(a0, x, y) && (x == v ==> y in keep);
      var j := 0;
      while j < |adj|
        invariant 0 <= j <= |adj| == |a0|
        invariant forall x :: 0 <= x < |adj| ==> NoRepeats(adj[x])
        invariant forall x: nat, y: nat :: Edge(adj, x, y) <==> Edge(a1, x, y) && (y == v && x < j ==> x in keep)
      {
        if j !in keep {
          adj := adj[j := Filter(adj[j], y => y != v)];
        }
        j := j + 1;
      }
    }

    /** splitProc: edges between `vs` and the rest disappear. If `vs` lies in one class, it becomes a class of its own. */
    method SplitProc(vs: seq<nat>)
      requires Cliques(adj) && forall v :: v in vs ==> v < |adj|
      modifies this
      ensures Cliques(adj) && |adj| == |old(adj)|
      ensures forall x: nat, y: nat :: Edge(adj, x, y) <==> Edge(old(adj), x, y) && (x in vs <==> y in vs)
      ensures OneClass(old(adj), vs) ==> TakenOut(old(adj), adj, set v | v in vs)
    {
      var keep := set v | v in vs;
      var k := 0;
      while k < |vs|
        invariant 0 <= k <= |vs| && Simple(adj) && |adj| == |old(adj)|
        invariant forall x: nat, y: nat :: Edge(adj, x, y) <==>
                    Edge(old(adj), x, y) && (x in vs[..k] ==> y in keep) && (y in vs[..k] ==> x in keep)
      {
        assert vs[k] in vs;
        RemoveAdjEdge(vs[k], keep);
        assert vs[..k + 1] == vs[..k] + [vs[k]];
        k := k + 1;
      }
      assert vs[..k] == vs;
      CutKeepsCliques(old(adj), adj, keep);
      if OneClass(old(adj), vs) {
        CutCliques(old(adj), adj, keep, vs[0]);
      }
    }

    /** unionProc: cliques stay cliques. If `us` and `ws` each lie in one class, these two become one. */
    method UnionProc(us: seq<nat>, ws: seq<nat>)
      requires Cliques(adj) && us != [] && ws != []
      requires (forall u :: u in us ==> u < |adj|) && (forall w :: w in ws ==> w < |adj|)
      modifies this
      ensures Cliques(adj) && |adj| == |old(adj)|
      ensures OneClass(old(adj), us) && OneClass(old(adj), ws) ==> Joined(old(adj), adj, us[0], ws[0])
    {
      ghost var a0 := adj;
      assert us[0] in us && ws[0] in ws;
      if |us| == 1 && |ws| == 1 {
        CreateLinks(us[0], ws[0]);
        return;
      }
      if Edge(adj, us[0], ws[0]) {
        ClassesPartition(adj, us[0], ws[0]);
        EveryClass(adj, us[0]);
        return;
      }
      ghost var one := OneClass(a0, us) && OneClass(a0, ws);
      var k := 0;
      while k < |us|
        invariant 0 <= k <= |us| && Cliques(adj) && |adj| == |a0|
        invariant if k == 0 then adj == a0 else one ==> Joined(a0, adj, us[0], ws[0])
      {
        var l := 0;
        while l < |ws|
          invariant 0 <= l <= |ws| && Cliques(adj) && |adj| == |a0|
          invariant if k == 0 && l == 0 then adj == a0 else one ==> Joined(a0, adj, us[0], ws[0])
        {
          assert us[k] in us && ws[l] in ws;
          ghost var b := adj;
          CreateLinks(us[k], ws[l]);
          if one && (k != 0 || l != 0) {
            JoinAgain(a0, b, adj, us[0], ws[0], us[k], ws[l]);
          }
          l := l + 1;
        }
        k := k + 1;
      }
    }
  }

  /** The class of `x` is made of the vertices from `lo` to `hi`. */
  ghost predicate Spans(adj: Adj, x: nat, lo: nat, hi: nat) {
    x < |adj| && forall y: nat :: y in Class(adj, x) <==> lo <= y < hi
  }

  ghost predicate Within(adj: Adj, x: nat, lo: nat, hi: nat) {
    x < |adj| && forall y: nat :: y in Class(adj, x) ==> lo <= y < hi
  }

  /** The vertices from `lo` to `hi` are in one class, which holds no vertex below `lo`; those below are as before. */
  ghost predicate Gathered(a0: Adj, adj: Adj, lo: nat, hi: nat) {
    && lo < hi <= |adj| == |a0| && (forall y :: lo <= y < hi ==> y in Class(adj, lo))
    && (forall x :: 0 <= x < lo ==> Class(adj, x) == Class(a0, x) && Within(adj, x, 0, lo))
    && (forall x :: lo <= x < |adj| ==> Within(adj, x, lo, |adj|))
  }

  lemma IsolatedStart(a: Adj, lo: nat)
    requires Cliques(a) && lo < |a| && forall x :: lo <= x < |a| ==> a[x] == []
    ensures Gathered(a, a, lo, lo + 1)
  {
    forall x, y | 0 <= x < lo && y in Class(a, x)
      ensures y < lo
    {
      if y != x {
        assert Edge(a, x, y) && Edge(a, y, x);
      }
    }
  }

  lemma GatherMore(a0: Adj, b: Adj, adj: Adj, lo: nat, hi: nat, k: nat, m: nat)
    requires Cliques(b) && lo < hi && Gathered(a0, b, lo, hi) && lo <= k < |b| && lo <= m < |b| && Joined(b, adj, k, m)
    requires hi < |b| ==> k == lo && m == hi
    ensures Gathered(a0, adj, lo, if hi < |b| then hi + 1 else hi)
  {
    hide Cliques;
    assert Within(b, k, lo, |b|) && Within(b, m, lo, |b|);
    assert forall x :: 0 <= x < lo ==> Class(adj, x) == Class(b, x);
    forall y | lo <= y < if hi < |b| then hi + 1 else hi
      ensures y in Class(adj, lo)
    {
      assert lo in Class(b, lo) && m in Class(b, m);
      if lo in Class(b, k) {
        ClassesPartition(b, k, lo);
      }
      if lo in Class(b, m) {
        ClassesPartition(b, m, lo);
      }
    }
    forall x | lo <= x < |adj|
      ensures Within(adj, x, lo, |adj|)
    {
      assert Within(b, x, lo, |b|);
    }
    forall x | 0 <= x < lo
      ensures Within(adj, x, 0, lo)
    {
      assert Within(b, x, 0, lo);
    }
  }

  lemma GatheredAll(a0: Adj, adj: Adj, lo: nat)
    requires Cliques(adj) && Gathered(a0, adj, lo, |adj|)
    ensures forall x :: lo <= x < |adj| ==> Spans(adj, x, lo, |adj|)
  {
    forall x | lo <= x < |adj|
      ensures Spans(adj, x, lo, |adj|)
    {
      assert x in Class(adj, lo) && Within(adj, x, lo, |adj|);
      ClassesPartition(adj, lo, x);
    }
  }

  ghost predicate OneClass(adj: Adj, vs: seq<nat>) {
    vs != [] && vs[0] < |adj| && forall v :: v in vs ==> v in Class(adj, vs[0])
  }

  lemma EveryClass(a: Adj, i: nat)
    requires Cliques(a) && i < |a|
    ensures forall x :: 0 <= x < |a| && x in Class(a, i) ==> Class(a, x) == Class(a, i)
  {
    forall x | 0 <= x < |a| && x in Class(a, i)
      ensures Class(a, x) == Class(a, i)
    {
      ClassesPartition(a, i, x);
    }
  }

  /** The classes after linking those of `i` and `j`. */
  ghost predicate Joined(a: Adj, b: Adj, i: nat, j: nat)
    requires i < |a| && j < |a|
  {
    && Cliques(b) && |b| == |a|
    && forall x :: 0 <= x < |a| ==>
         Class(b, x) == if x in Class(a, i) + Class(a, j) then Class(a, i) + Class(a, j) else Class(a, x)
  }

  /** The classes after taking `s` out of its class. */
  ghost predicate TakenOut(a: Adj, b: Adj, s: set<nat>) {
    && Cliques(b) && |b| == |a|
    && forall x :: 0 <= x < |a| ==> Class(b, x) == if x in s then s else Class(a, x) - s
  }

  lemma CutCliques(a: Adj, b: Adj, s: set<nat>, v: nat)
    requires Cliques(a) && Simple(b) && |b| == |a| && v in s && v < |a| && s <= Class(a, v)
    requires forall x: nat, y: nat :: Edge(b, x, y) <==> Edge(a, x, y) && (x in s <==> y in s)
    ensures TakenOut(a, b, s)
  {
    forall x | 0 <= x < |a|
      ensures Class(b, x) == if x in s then s else Class(a, x) - s
    {
      if x in s {
        ClassesPartition(a, v, x);
      }
      forall y: nat
        ensures y in Class(b, x) <==> y in if x in s then s else Class(a, x) - s
      {
        assert y in Class(a, x) <==> y == x || Edge(a, x, y);
        assert y in Class(b, x) <==> y == x || Edge(b, x, y);
      }
    }
    CutKeepsCliques(a, b, s);
  }

  lemma CutKeepsCliques(a: Adj, b: Adj, s: set<nat>)
    requires Cliques(a) && Simple(b)
    requires forall x: nat, y: nat :: Edge(b, x, y) <==> Edge(a, x, y) && (x in s <==> y in s)
    ensures Cliques(b)
  {
    forall x: nat, y: nat, z: nat | Edge(b, x, y) && Edge(b, y, z) && x != z
      ensures Edge(b, x, z)
    {
      assert Edge(a, x, z);
    }
  }

  lemma JoinAgain(a: Adj, b: Adj, d: Adj, i: nat, j: nat, x: nat, y: nat)
    requires Cliques(a) && i < |a| && j < |a| && Joined(a, b, i, j) && x < |b| && y < |b| && Joined(b, d, x, y)
    requires x in Class(a, i) && y in Class(a, j)
    ensures Joined(a, d, i, j)
  {
    assert x in Class(b, x) && y in Class(b, y);
    assert Class(b, x) == Class(b, y) == Class(a, i) + Class(a, j);
  }

  function Filter(s: seq<nat>, f: nat -> bool): (r: seq<nat>)
    ensures forall y :: y in r <==> y in s && f(y)
    ensures NoRepeats(s) ==> NoRepeats(r)
  {
    if s == [] then []
    else
      var r := Filter(s[1..], f);
      assert s == [s[0]] + s[1..];
      if f(s[0]) then [s[0]] + r else r
  }

  lemma AllCrossed(a0: Adj, a1: Adj, a2: Adj, a3: Adj, i: nat, j: nat)
    requires Simple(a0) && i < |a0| && j < |a0|
    requires GrownWithin(a0, a1, Class(a0, i) + Class(a0, j)) && (i != j ==> Edge(a1, i, j))
    requires GrownWithin(a1, a2, Class(a0, i) + Class(a0, j)) && forall x :: x in a1[i] ==> LinkedTo(a2, x, j, a1[j])
    requires GrownWithin(a2, a3, Class(a0, i) + Class(a0, j)) && forall x :: x in a2[j] ==> LinkedTo(a3, x, i, a2[i])
    ensures forall x, y :: x in Class(a0, i) && y in Class(a0, j) && x != y ==> Edge(a3, x, y)
  {
    forall x, y | x in Class(a0, i) && y in Class(a0, j) && x != y
      ensures Edge(a3, x, y)
    {
      if x != i {
        assert Edge(a0, i, x) && Edge(a1, i, x);
        assert y == j || Edge(a1, j, y) by {
          assert y == j || Edge(a0, j, y);
        }
        assert Edge(a2, x, y);
      } else if y != j {
        assert Edge(a0, j, y) && Edge(a1, j, y) && Edge(a2, j, y);
        assert Edge(a3, y, i);
      }
    }
  }

  /** `p` has an edge to `j` and to everything in `ys`, itself excepted. */
  ghost predicate LinkedTo(adj: Adj, p: nat, j: nat, ys: seq<nat>) {
    (p == j || Edge(adj, p, j)) && forall y :: y in ys && y != p ==> Edge(adj, p, y)
  }
}
