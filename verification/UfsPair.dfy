/** One client and the server's space for it, with the two FIFO channels between them. */
module UfsPair {
  import opened Base
  import opened UfsPartition
  import opened UfsTransform
  import opened UfsSpace

  /** An operation on its way, with the identifiers of the operations executed before it. `mark` repeats how
      many of those came from the receiving side; no handler reads it. */
  datatype Msg = Msg(op: Op, id: OpId, ctx: set<OpId>, mark: nat)

  function Ids(s: seq<OpId>): set<OpId> {
    set x | x in s
  }

  function AllIds(s: Space): set<OpId> {
    Ids(s.alongIds) + Ids(s.acrossIds)
  }

  // ---------------------------------------------------------------- finding a state by its context

  function Visited(s: Space, x: nat, y: nat): set<OpId>
    requires x <= |s.alongIds| && y <= |s.acrossIds|
  {
    Ids(s.alongIds[..x]) + Ids(s.acrossIds[..y])
  }

  /** The decimal digits of `n` begin those of `m`. */
  predicate DecimalPrefix(n: nat, m: nat) {
    n == m || (m >= 10 && DecimalPrefix(n, m / 10))
  }

  /** findOid looks for the text of an identifier, so it also finds the first operation of a client where only the
      twelfth is named. */
  predicate FindOid(ctx: set<OpId>, id: OpId) {
    exists k :: k in ctx && k.client == id.client && DecimalPrefix(id.num, k.num)
  }

  /** With an operation of a client, the context names all that client's earlier ones. */
  ghost predicate Closed(ctx: set<OpId>) {
    forall k, m :: k in ctx && 0 < m <= k.num ==> OpId(k.client, m) in ctx
  }

  lemma {:induction false} PrefixIsNoGreater(n: nat, m: nat)
    requires DecimalPrefix(n, m)
    ensures n <= m
  {
    if n != m {
      PrefixIsNoGreater(n, m / 10);
    }
  }

  /** In such a context an identifier's text is found exactly when it is named. */
  lemma FoundIsNamed(ctx: set<OpId>, id: OpId)
    requires Closed(ctx) && id.num > 0
    ensures FindOid(ctx, id) <==> id in ctx
  {
    if FindOid(ctx, id) {
      var k :| k in ctx && k.client == id.client && DecimalPrefix(id.num, k.num);
      PrefixIsNoGreater(id.num, k.num);
      assert OpId(k.client, id.num) in ctx;
    } else {
      assert DecimalPrefix(id.num, id.num);
    }
  }

  predicate GoesAlong(s: Space, ctx: set<OpId>, x: nat, y: nat)
    requires x <= |s.alongIds|
  {
    x < |s.alongIds| && HasAlong(s, x, y) && FindOid(ctx, s.alongIds[x])
  }

  predicate GoesAcross(s: Space, ctx: set<OpId>, x: nat, y: nat)
    requires Shape(s)
  {
    HasAcross(s, x, y) && FindOid(ctx, s.acrossIds[y])
  }

  /** locateRVertice: from the initial state, take the left edge while its operation is in the context, else the right
      one, until as many operations are passed as the context names. Left are the client's own operations: in a
      client's space those along the rows, in the server's those across. */
  function Locate(s: Space, ctx: set<OpId>, x: nat, y: nat, alongFirst: bool): Option<(nat, nat)>
    requires Shape(s) && x <= |s.alongIds| && y <= |s.acrossIds|
    decreases |s.alongIds| - x + |s.acrossIds| - y
  {
    if |Visited(s, x, y)| == |ctx| then (if Visited(s, x, y) == ctx then Some((x, y)) else None)
    else if GoesAlong(s, ctx, x, y) && (alongFirst || !GoesAcross(s, ctx, x, y)) then Locate(s, ctx, x + 1, y, alongFirst)
    else if GoesAcross(s, ctx, x, y) then Locate(s, ctx, x, y + 1, alongFirst)
    else None
  }

  /** A state that is found is one of the space, and its operations are those of the context. */
  lemma {:induction false} LocateIsSound(s: Space, ctx: set<OpId>, x: nat, y: nat, alongFirst: bool)
    requires Shape(s) && x <= |s.alongIds| && y <= |s.acrossIds| && HasCell(s, x, y)
    ensures var at := Locate(s, ctx, x, y, alongFirst);
            at.Some? ==> && HasCell(s, at.value.0, at.value.1)
                         && at.value.0 <= |s.alongIds| && at.value.1 <= |s.acrossIds|
                         && Visited(s, at.value.0, at.value.1) == ctx
    decreases |s.alongIds| - x + |s.acrossIds| - y
  {
    hide Shape, FindOid, Visited, GoesAlong, GoesAcross, HasCell;
    EdgesInRange(s, ctx, x, y);
    if |Visited(s, x, y)| != |ctx| {
      if GoesAlong(s, ctx, x, y) && (alongFirst || !GoesAcross(s, ctx, x, y)) {
        LocateIsSound(s, ctx, x + 1, y, alongFirst);
      } else if GoesAcross(s, ctx, x, y) {
        LocateIsSound(s, ctx, x, y + 1, alongFirst);
      }
    }
  }

  /** The same as the loop it is in the source. */
  method LocateRVertice(s: Space, ctx: set<OpId>, alongFirst: bool) returns (at: Option<(nat, nat)>)
    requires Shape(s)
    ensures at == Locate(s, ctx, 0, 0, alongFirst)
  {
    hide Shape, FindOid, Visited, GoesAlong, GoesAcross, HasCell;
    var x, y := 0, 0;
    while |Visited(s, x, y)| != |ctx|
      invariant x <= |s.alongIds| && y <= |s.acrossIds|
      invariant Locate(s, ctx, x, y, alongFirst) == Locate(s, ctx, 0, 0, alongFirst)
      decreases |s.alongIds| - x + |s.acrossIds| - y
    {
      EdgesInRange(s, ctx, x, y);
      if GoesAlong(s, ctx, x, y) && (alongFirst || !GoesAcross(s, ctx, x, y)) {
        x := x + 1;
      } else if GoesAcross(s, ctx, x, y) {
        y := y + 1;
      } else {
        return None;
      }
    }
    return if Visited(s, x, y) == ctx then Some((x, y)) else None;
  }

  lemma EdgesInRange(s: Space, ctx: set<OpId>, x: nat, y: nat)
    requires Shape(s) && x <= |s.alongIds|
    ensures GoesAlong(s, ctx, x, y) ==> x < |s.alongIds|
    ensures GoesAcross(s, ctx, x, y) ==> y < |s.acrossIds|
    ensures GoesAlong(s, ctx, x, y) ==> HasCell(s, x + 1, y)
    ensures GoesAcross(s, ctx, x, y) ==> HasCell(s, x, y + 1)
  {
    assert y + 1 < |s.rows| ==> Fits(s, y);
  }

  lemma RowsHaveIds(s: Space, y: nat)
    requires Shape(s) && y + 1 < |s.rows|
    ensures y < |s.acrossIds|
  {
  }

  /** locateLVertice with calculateOids: the walk without a context ends at the final state and passes every operation. */
  method LocateLVertice(s: Space, alongFirst: bool) returns (x: nat, y: nat, oids: set<OpId>)
    requires Shape(s)
    ensures x == |s.alongIds| && y == |s.rows| - 1 && oids == AllIds(s)
  {
    x, y, oids := 0, 0, {};
    RowsGrow(s, 0, |s.rows| - 1);
    while HasAlong(s, x, y) || HasAcross(s, x, y)
      invariant HasCell(s, x, y) && x <= |s.alongIds| && y <= |s.acrossIds| && oids == Visited(s, x, y)
      decreases |s.alongIds| - x + |s.acrossIds| - y
    {
      RowsGrow(s, y, |s.rows| - 1);
      if HasAlong(s, x, y) && (alongFirst || !HasAcross(s, x, y)) {
        assert s.alongIds[..x + 1] == s.alongIds[..x] + [s.alongIds[x]];
        oids := oids + {s.alongIds[x]};
        x := x + 1;
      } else {
        assert Fits(s, y);
        assert s.acrossIds[..y + 1] == s.acrossIds[..y] + [s.acrossIds[y]];
        oids := oids + {s.acrossIds[y]};
        y := y + 1;
      }
    }
    EndOfWalk(s, x, y);
    assert s.alongIds[..x] == s.alongIds && s.acrossIds[..y] == s.acrossIds;
  }

  lemma EndOfWalk(s: Space, x: nat, y: nat)
    requires Shape(s) && HasCell(s, x, y) && !HasAlong(s, x, y) && !HasAcross(s, x, y)
    ensures y == |s.rows| - 1 && x == |s.alongIds|
  {
    if y + 1 < |s.rows| {
      RowFits(s, y);
    }
  }

  lemma RowFits(s: Space, y: nat)
    requires Shape(s) && y + 1 < |s.rows|
    ensures s.rows[y + 1].lo <= Hi(s.rows[y])
  {
    assert Fits(s, y);
  }

  ghost predicate DistinctIds(a: seq<OpId>, b: seq<OpId>) {
    && (forall i, j :: 0 <= i < j < |a| ==> a[i] != a[j])
    && (forall i, j :: 0 <= i < j < |b| ==> b[i] != b[j])
    && (forall i, j :: 0 <= i < |a| && 0 <= j < |b| ==> a[i] != b[j])
  }

  /** Operations are numbered from 1, and each comes after the earlier ones of its client. */
  ghost predicate InOrder(ids: seq<OpId>) {
    forall k :: 0 <= k < |ids| ==> ids[k].num > 0 && Precede(ids[..k], ids[k])
  }

  ghost predicate Precede(ids: seq<OpId>, id: OpId) {
    forall m :: 0 < m < id.num ==> OpId(id.client, m) in ids
  }

  lemma InOrderPrefix(ids: seq<OpId>, n: nat)
    requires InOrder(ids) && n <= |ids|
    ensures InOrder(ids[..n]) && Closed(Ids(ids[..n]))
  {
    var p := ids[..n];
    forall k | 0 <= k < |p|
      ensures p[k].num > 0 && Precede(p[..k], p[k])
    {
      assert p[..k] == ids[..k] && p[k] == ids[k];
    }
    forall id, m | id in Ids(p) && 0 < m <= id.num
      ensures OpId(id.client, m) in Ids(p)
    {
      var k :| 0 <= k < |p| && p[k] == id;
      assert p[..k] == ids[..k] && Precede(ids[..k], ids[k]);
      if m < id.num {
        assert OpId(id.client, m) in p[..k];
      }
    }
  }

  lemma InOrderAppend(ids: seq<OpId>, id: OpId)
    requires InOrder(ids) && id.num > 0 && Precede(ids, id)
    ensures InOrder(ids + [id])
  {
    var t := ids + [id];
    forall k | 0 <= k < |t|
      ensures t[k].num > 0 && Precede(t[..k], t[k])
    {
      assert t[..k] == ids[..k];
      if k == |ids| {
        assert t[..k] == ids;
      }
    }
  }

  lemma VisitedIsClosed(s: Space, x: nat, y: nat)
    requires InOrder(s.alongIds) && InOrder(s.acrossIds) && x <= |s.alongIds| && y <= |s.acrossIds|
    ensures Closed(Visited(s, x, y))
  {
    InOrderPrefix(s.alongIds, x);
    InOrderPrefix(s.acrossIds, y);
  }

  lemma {:induction false} IdsSize(s: seq<OpId>)
    requires forall i, j :: 0 <= i < j < |s| ==> s[i] != s[j]
    ensures |Ids(s)| == |s|
  {
    if s != [] {
      var n := |s| - 1;
      IdsSize(s[..n]);
      assert Ids(s) == Ids(s[..n]) + {s[n]};
    }
  }

  /** The first `x` identifiers: how many there are, and which. */
  lemma PrefixIds(s: seq<OpId>, x: nat)
    requires x <= |s| && forall i, j :: 0 <= i < j < |s| ==> s[i] != s[j]
    ensures |Ids(s[..x])| == x
    ensures forall i :: 0 <= i < |s| ==> (s[i] in Ids(s[..x]) <==> i < x)
  {
    IdsSize(s[..x]);
    forall i | 0 <= i < |s|
      ensures s[i] in Ids(s[..x]) <==> i < x
    {
      if i < x {
        assert s[..x][i] == s[i];
      }
    }
  }

  lemma NotAmong(a: seq<OpId>, b: seq<OpId>, x: nat)
    requires x <= |a| && forall i, j :: 0 <= i < |a| && 0 <= j < |b| ==> a[i] != b[j]
    ensures forall j :: 0 <= j < |b| ==> b[j] !in Ids(a[..x])
  {
  }

  lemma VisitedFacts(s: Space, x: nat, y: nat)
    requires DistinctIds(s.alongIds, s.acrossIds) && x <= |s.alongIds| && y <= |s.acrossIds|
    ensures |Visited(s, x, y)| == x + y
    ensures forall i :: 0 <= i < |s.alongIds| ==> (s.alongIds[i] in Visited(s, x, y) <==> i < x)
    ensures forall i :: 0 <= i < |s.acrossIds| ==> (s.acrossIds[i] in Visited(s, x, y) <==> i < y)
  {
    PrefixIds(s.alongIds, x);
    PrefixIds(s.acrossIds, y);
    NotAmong(s.alongIds, s.acrossIds, x);
    NotAmong(s.acrossIds, s.alongIds, y);
    var a, b := Ids(s.alongIds[..x]), Ids(s.acrossIds[..y]);
    assert a !! b by {
      forall e | e in b
        ensures e !in a
      {
        var j :| 0 <= j < y && s.acrossIds[j] == e;
      }
    }
    hide Ids;
  }

  /** Short of the goal at least one edge leads nearer to it. */
  lemma WalkGoesOn(s: Space, x: nat, y: nat, x2: nat, y2: nat)
    requires Shape(s) && HasCell(s, x, y) && HasCell(s, x2, y2) && x <= x2 && y <= y2 && (x, y) != (x2, y2)
    ensures HasAlong(s, x, y) ==> HasCell(s, x + 1, y)
    ensures HasAcross(s, x, y) ==> HasCell(s, x, y + 1)
    ensures (x < x2 && HasAlong(s, x, y)) || (y < y2 && HasAcross(s, x, y))
    ensures y2 < |s.rows| && x2 <= |s.alongIds|
  {
    RowsGrow(s, y, y2);
    RowsGrow(s, y2, |s.rows| - 1);
    if y + 1 < |s.rows| {
      assert Fits(s, y);
    }
    if y < y2 {
      RowsGrow(s, y + 1, y2);
    }
  }

  /** Which edges the walk may take, when the context is what the goal has executed. */
  lemma EdgesOfContext(s: Space, x: nat, y: nat, x2: nat, y2: nat)
    requires Shape(s) && DistinctIds(s.alongIds, s.acrossIds) && InOrder(s.alongIds) && InOrder(s.acrossIds)
    requires x <= x2 <= |s.alongIds| && y <= y2 <= |s.acrossIds|
    ensures GoesAlong(s, Visited(s, x2, y2), x, y) <==> HasAlong(s, x, y) && x < x2
    ensures GoesAcross(s, Visited(s, x2, y2), x, y) <==> HasAcross(s, x, y) && y < y2
  {
    hide DistinctIds, Visited, FindOid, Closed, Shape;
    var ctx := Visited(s, x2, y2);
    VisitedFacts(s, x2, y2);
    VisitedIsClosed(s, x2, y2);
    if x < |s.alongIds| {
      FoundIsNamed(ctx, s.alongIds[x]);
    }
    if HasAcross(s, x, y) {
      RowsHaveIds(s, y);
      FoundIsNamed(ctx, s.acrossIds[y]);
    }
  }

  /** Whichever edge it prefers, the walk reaches the state whose executed operations are exactly those of the
      context. */
  lemma {:induction false} LocateFinds(s: Space, x: nat, y: nat, x2: nat, y2: nat, alongFirst: bool)
    requires Shape(s) && DistinctIds(s.alongIds, s.acrossIds) && InOrder(s.alongIds) && InOrder(s.acrossIds)
    requires x <= x2 <= |s.alongIds| && y <= y2 <= |s.acrossIds| && HasCell(s, x, y) && HasCell(s, x2, y2)
    ensures Locate(s, Visited(s, x2, y2), x, y, alongFirst) == Some((x2, y2))
    decreases x2 - x + y2 - y
  {
    hide DistinctIds, InOrder, Shape, Visited, HasCell, GoesAlong, GoesAcross;
    var ctx := Visited(s, x2, y2);
    VisitedFacts(s, x, y);
    VisitedFacts(s, x2, y2);
    if (x, y) != (x2, y2) {
      WalkGoesOn(s, x, y, x2, y2);
      EdgesOfContext(s, x, y, x2, y2);
      if GoesAlong(s, ctx, x, y) && (alongFirst || !GoesAcross(s, ctx, x, y)) {
        LocateFinds(s, x + 1, y, x2, y2, alongFirst);
      } else {
        LocateFinds(s, x, y + 1, x2, y2, alongFirst);
      }
    }
  }

  // ---------------------------------------------------------------- the channels

  /** Message `m` carries operation number `n` of `a`, as executed at the state its context names. */
  ghost predicate Sent(a: Space, m: Msg, n: nat)
    requires Shape(a)
  {
    && n < |a.alongIds| && HasAlong(a, n, m.mark) && Along(a, n, m.mark) == m.op && m.id == a.alongIds[n]
    && m.ctx == Visited(a, n, m.mark)
  }

  /** Everything `a` did that `b` has not received is in `u`, in order. */
  ghost predicate Channel(a: Space, b: Space, u: seq<Msg>)
    requires Shape(a) && Shape(b)
  {
    && |u| + |b.acrossIds| == |a.alongIds| && b.acrossIds == a.alongIds[..|b.acrossIds|]
    && (forall y :: 0 <= y < |b.rows| ==> b.rows[y].lo <= |a.acrossIds|)
    && (forall k {:trigger u[k]} :: 0 <= k < |u| ==> Sent(a, u[k], |b.acrossIds| + k) && Last(b).lo <= u[k].mark)
    && (forall k, l :: 0 <= k < l < |u| ==> u[k].mark <= u[l].mark)
  }

  /** The bookkeeping of a pair: what is in flight, and the identifiers. It does not depend on what operations mean. */
  ghost predicate Linked(a: Space, b: Space, u: seq<Msg>, d: seq<Msg>) {
    && Shape(a) && Shape(b) && Channel(a, b, u) && Channel(b, a, d)
    && DistinctIds(a.alongIds, b.alongIds) && InOrder(a.alongIds) && InOrder(b.alongIds)
  }

  lemma LinkIsSymmetric(a: Space, b: Space, u: seq<Msg>, d: seq<Msg>)
    requires Linked(a, b, u, d)
    ensures Linked(b, a, d, u)
  {
  }

  /** Side `a` executes an operation of its own and sends it. */
  function Outgoing(a: Space, op: Op, id: OpId): Msg
    requires a.rows != []
  {
    Msg(op, id, AllIds(a), |a.rows| - 1)
  }

  lemma SentSurvivesExtend(a: Space, op: Op, content: Content, id: OpId, m: Msg, n: nat)
    requires Shape(a) && Sent(a, m, n)
    ensures Shape(Extend(a, op, content, id)) && Sent(Extend(a, op, content, id), m, n)
  {
    ExtendKeepsShape(a, op, content, id);
    var t := Extend(a, op, content, id);
    assert t.alongIds[..n] == a.alongIds[..n];
  }

  lemma OutgoingIsSent(a: Space, op: Op, content: Content, id: OpId)
    requires Shape(a)
    ensures Shape(Extend(a, op, content, id)) && Sent(Extend(a, op, content, id), Outgoing(a, op, id), |a.alongIds|)
  {
    var t := Extend(a, op, content, id);
    ExtendKeepsShape(a, op, content, id);
    RowsGrow(a, 0, |a.rows| - 1);
    assert t.alongIds[..|a.alongIds|] == a.alongIds && t.acrossIds[..|a.rows| - 1] == a.acrossIds;
  }

  lemma ExtendKeepsOutChannel(a: Space, b: Space, u: seq<Msg>, op: Op, content: Content, id: OpId)
    requires Shape(a) && Shape(b) && Channel(a, b, u)
    ensures Shape(Extend(a, op, content, id)) && Channel(Extend(a, op, content, id), b, u + [Outgoing(a, op, id)])
  {
    var t, u' := Extend(a, op, content, id), u + [Outgoing(a, op, id)];
    OutgoingIsSent(a, op, content, id);
    assert t.alongIds[..|b.acrossIds|] == a.alongIds[..|b.acrossIds|];
    forall k | 0 <= k < |u'|
      ensures Sent(t, u'[k], |b.acrossIds| + k) && Last(b).lo <= u'[k].mark && u'[k].mark <= |a.rows| - 1
    {
      if k < |u| {
        assert Sent(a, u[k], |b.acrossIds| + k);
        SentSurvivesExtend(a, op, content, id, u[k], |b.acrossIds| + k);
      } else {
        assert b.rows[|b.rows| - 1].lo <= |a.acrossIds|;
      }
    }
  }

  lemma ExtendKeepsInChannel(a: Space, b: Space, d: seq<Msg>, op: Op, content: Content, id: OpId)
    requires Shape(a) && Shape(b) && Channel(b, a, d)
    ensures Shape(Extend(a, op, content, id)) && Channel(b, Extend(a, op, content, id), d)
  {
    var t := Extend(a, op, content, id);
    ExtendKeepsShape(a, op, content, id);
    forall y | 0 <= y < |t.rows|
      ensures t.rows[y].lo <= |b.acrossIds|
    {
      assert t.rows[y].lo == a.rows[y].lo;
    }
  }

  /** Side `a` executes and sends an operation: the pair stays linked. */
  lemma ExtendKeepsLinked(a: Space, b: Space, u: seq<Msg>, d: seq<Msg>, op: Op, content: Content, id: OpId)
    requires Linked(a, b, u, d) && id !in a.alongIds && id !in b.alongIds && id.num > 0 && Precede(a.alongIds, id)
    ensures Linked(Extend(a, op, content, id), b, u + [Outgoing(a, op, id)], d)
  {
    ExtendKeepsOutChannel(a, b, u, op, content, id);
    ExtendKeepsInChannel(a, b, d, op, content, id);
    InOrderAppend(a.alongIds, id);
  }

  lemma ContextIsVisited(a: Space, b: Space, u: seq<Msg>, d: seq<Msg>)
    requires Linked(a, b, u, d) && u != []
    ensures var m, p := u[0], |b.rows| - 1;
            m.mark <= |b.alongIds| && m.ctx == Visited(b, m.mark, p) && HasCell(b, m.mark, p) && Last(b).lo <= m.mark <= Hi(Last(b))
  {
    var m, p := u[0], |b.rows| - 1;
    assert Sent(a, m, p) && Last(b).lo <= m.mark;
    assert a.acrossIds == b.alongIds[..|a.acrossIds|];
    assert a.acrossIds[..m.mark] == b.alongIds[..m.mark];
    assert b.acrossIds[..p] == a.alongIds[..p];
  }

  lemma VisitedAndRest(b: Space, x: nat, y: nat)
    requires x <= |b.alongIds| && y == |b.acrossIds|
    ensures Visited(b, x, y) + Ids(b.alongIds[x..]) == AllIds(b)
  {
    assert b.alongIds == b.alongIds[..x] + b.alongIds[x..] && b.acrossIds[..y] == b.acrossIds;
  }

  /** The first message in the channel names the state of the receiver at which it enters. */
  lemma ReceiverKnowsState(a: Space, b: Space, u: seq<Msg>, d: seq<Msg>, alongFirst: bool)
    requires Linked(a, b, u, d) && u != []
    ensures Locate(b, u[0].ctx, 0, 0, alongFirst) == Some((u[0].mark, |b.rows| - 1))
    ensures u[0].mark <= |b.alongIds| && Last(b).lo <= u[0].mark <= Hi(Last(b))
    ensures u[0].ctx + Ids(b.alongIds[u[0].mark..]) == AllIds(b)
  {
    var m, p := u[0], |b.rows| - 1;
    ContextIsVisited(a, b, u, d);
    OwnIdsDistinct(a, b);
    InOrderPrefix(a.alongIds, |b.acrossIds|);
    assert HasCell(b, 0, 0);
    LocateFinds(b, 0, 0, m.mark, p, alongFirst);
    VisitedAndRest(b, m.mark, p);
  }

  lemma OwnIdsDistinct(a: Space, b: Space)
    requires DistinctIds(a.alongIds, b.alongIds) && |b.acrossIds| <= |a.alongIds| && b.acrossIds == a.alongIds[..|b.acrossIds|]
    ensures DistinctIds(b.alongIds, b.acrossIds)
  {
  }

  /** An operation in flight is acceptable where it enters. */
  lemma MessageFits(a: Space, b: Space, u: seq<Msg>, d: seq<Msg>)
    requires Linked(a, b, u, d) && Agree(a, b) && u != []
    ensures Enters(a, b, u[0].mark, u[0].op)
  {
    var m, p := u[0], |b.rows| - 1;
    assert Sent(a, m, p) && Last(b).lo <= m.mark;
    AlongLeads(a, p, m.mark);
    assert HasCell(a, p, m.mark) && HasCell(b, m.mark, p);
    assert RowOk(b.rows[p]);
    assert forall y :: 0 <= y < |a.rows| ==> a.rows[y].lo <= |b.acrossIds|;
  }

  lemma SentSurvivesInsert(b: Space, x: nat, op: Op, id: OpId, m: Msg, n: nat)
    requires Shape(b) && Last(b).lo <= x <= Hi(Last(b)) && Sent(b, m, n)
    ensures Shape(Insert(b, x, op, id)) && Sent(Insert(b, x, op, id), m, n)
  {
    InsertCells(b, x, op, id);
    var t := Insert(b, x, op, id);
    assert t.rows[m.mark] == b.rows[m.mark] && t.acrossIds[..m.mark] == b.acrossIds[..m.mark];
  }

  lemma InsertKeepsBackChannel(a: Space, b: Space, d: seq<Msg>, x: nat, op: Op, id: OpId)
    requires Shape(a) && Shape(b) && Channel(b, a, d) && Last(b).lo <= x <= Hi(Last(b))
    ensures Shape(Insert(b, x, op, id)) && Channel(Insert(b, x, op, id), a, d)
  {
    var t := Insert(b, x, op, id);
    InsertKeepsShape(b, x, op, id);
    forall k | 0 <= k < |d|
      ensures Sent(t, d[k], |a.acrossIds| + k) && Last(a).lo <= d[k].mark
    {
      assert Sent(b, d[k], |a.acrossIds| + k);
      SentSurvivesInsert(b, x, op, id, d[k], |a.acrossIds| + k);
    }
  }

  lemma InsertKeepsChannel(a: Space, b: Space, u: seq<Msg>)
    requires Shape(a) && Shape(b) && Channel(a, b, u) && u != [] && Last(b).lo <= u[0].mark <= Hi(Last(b))
    ensures var t := Insert(b, u[0].mark, u[0].op, u[0].id); Shape(t) && Channel(a, t, u[1..])
  {
    InsertCells(b, u[0].mark, u[0].op, u[0].id);
    ChannelAdvances(a, b, u, Insert(b, u[0].mark, u[0].op, u[0].id));
  }

  lemma ChannelAdvances(a: Space, b: Space, u: seq<Msg>, t: Space)
    requires Shape(a) && Shape(b) && Shape(t) && Channel(a, b, u) && u != []
    requires |t.rows| == |b.rows| + 1 && t.acrossIds == b.acrossIds + [u[0].id] && Last(t).lo == u[0].mark
    requires forall y :: 0 <= y < |b.rows| ==> t.rows[y] == b.rows[y]
    ensures Channel(a, t, u[1..])
  {
    FirstIsSent(a, b, u);
    hide Sent, Fits;
    assert a.alongIds[..|t.acrossIds|] == a.alongIds[..|b.acrossIds|] + [u[0].id];
    RestIsSent(a, u, |b.acrossIds|, Last(b).lo);
    forall y | 0 <= y < |t.rows|
      ensures t.rows[y].lo <= |a.acrossIds|
    {
      assert y < |b.rows| ==> t.rows[y] == b.rows[y];
    }
  }

  lemma FirstIsSent(a: Space, b: Space, u: seq<Msg>)
    requires Shape(a) && Shape(b) && Channel(a, b, u) && u != []
    ensures |b.acrossIds| < |a.alongIds| && u[0].id == a.alongIds[|b.acrossIds|] && u[0].mark <= |a.acrossIds|
  {
    assert Sent(a, u[0], |b.acrossIds|);
  }

  lemma RestIsSent(a: Space, u: seq<Msg>, n: nat, lo: nat)
    requires Shape(a) && u != []
    requires forall k {:trigger u[k]} :: 0 <= k < |u| ==> Sent(a, u[k], n + k) && lo <= u[k].mark
    requires forall k, l :: 0 <= k < l < |u| ==> u[k].mark <= u[l].mark
    ensures forall k {:trigger u[1..][k]} :: 0 <= k < |u[1..]| ==> Sent(a, u[1..][k], n + 1 + k) && u[0].mark <= u[1..][k].mark
  {
    forall k | 0 <= k < |u[1..]|
      ensures Sent(a, u[1..][k], n + 1 + k) && u[0].mark <= u[1..][k].mark
    {
      assert u[1..][k] == u[k + 1];
    }
  }

  /** Side `b` receives the first message: the pair stays linked. */
  lemma InsertKeepsLinked(a: Space, b: Space, u: seq<Msg>, d: seq<Msg>)
    requires Linked(a, b, u, d) && u != []
    ensures Last(b).lo <= u[0].mark <= Hi(Last(b))
    ensures Linked(a, Insert(b, u[0].mark, u[0].op, u[0].id), u[1..], d)
  {
    var m := u[0];
    ContextIsVisited(a, b, u, d);
    InsertKeepsChannel(a, b, u);
    InsertKeepsBackChannel(a, b, d, m.mark, m.op, m.id);
  }

  /** When nothing is in flight between them, client and server hold the same operations; and the same relation, if
      their spaces agree. */
  lemma QuietPairAgrees(a: Space, b: Space)
    requires Linked(a, b, [], [])
    ensures AllIds(a) == AllIds(b) && (Agree(a, b) ==> Abs(Final(a)) == Abs(Final(b)))
  {
    assert b.acrossIds == a.alongIds && a.acrossIds == b.alongIds;
    assert HasCell(a, |a.alongIds|, |a.rows| - 1) && HasCell(b, |b.alongIds|, |b.rows| - 1);
    assert Agree(a, b) ==> St(a, |a.alongIds|, |a.rows| - 1) == St(b, |b.alongIds|, |b.rows| - 1);
  }

  /** The operation that leaves the row leads from the old final state to the new one. */
  lemma TransformedLeads(a: Space, b: Space, x: nat, op: Op, id: OpId)
    requires Enters(a, b, x, op)
    ensures Shape(Insert(b, x, op, id)) && Leads(Final(b), Transformed(b, x, op), Final(Insert(b, x, op, id)))
  {
    hide Valid, Abs, Update, Transform, Meaning, Apply, After, OpOk, SingleSplit, Weave, Leads, RowOk, Stitched;
    InsertKeepsShape(b, x, op, id);
    InsertedRowOk(b, x, op);
    var r, k := Last(b), x - Last(b).lo;
    var w := Weave(r.cells[k..], r.along[k..], op);
    var n := |w.across| - 1;
    assert Leads(r.cells[k..][n], w.across[n], w.cells[n]);
  }

  /** An operation in flight is not yet among the receiver's. */
  lemma HeadIsFresh(a: Space, b: Space, u: seq<Msg>, d: seq<Msg>)
    requires Linked(a, b, u, d) && u != []
    ensures |b.acrossIds| < |a.alongIds| && u[0].id == a.alongIds[|b.acrossIds|]
    ensures u[0].id !in AllIds(b)
  {
    assert Sent(a, u[0], |b.acrossIds|);
  }
}
