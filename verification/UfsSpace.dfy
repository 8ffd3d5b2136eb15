/** The two-dimensional state space of a replica. Row `y` holds the states reached after `y` operations of the
    other side; along a row run the operations of this side, each row transformed against the one inserted
    before it. A client extends its rows with its own operations and inserts the server's; the server keeps
    one space per client and does the reverse. */
module UfsSpace {
  import opened UfsPartition
  import opened UfsTransform

  datatype OpId = OpId(client: nat, num: nat)

  /** States lo, lo+1, ... of a row and the operations between them. */
  datatype Row = Row(lo: nat, cells: seq<Content>, along: seq<Op>)

  /** `across[y]` are the operations that lead from row y to row y+1, starting at column rows[y+1].lo. */
  datatype Space = Space(rows: seq<Row>, across: seq<seq<Op>>, alongIds: seq<OpId>, acrossIds: seq<OpId>)

  function Hi(r: Row): nat {
    r.lo + |r.along|
  }

  // ---------------------------------------------------------------- building the space

  datatype Woven = Woven(cells: seq<Content>, along: seq<Op>, across: seq<Op>)

  /** The transformation loop of controlAlg: `op` enters before the first operation of the row; every step
      transforms the row's operation and the entering one against each other. */
  function Weave(cells: seq<Content>, along: seq<Op>, op: Op): (w: Woven)
    requires |cells| == |along| + 1
    ensures |w.cells| == |cells| && |w.along| == |along| && |w.across| == |cells|
    decreases |along|
  {
    if along == [] then Woven([Update(cells[0], op)], [], [op])
    else
      var w := Weave(cells[1..], along[1..], Transform(cells[0], op, along[0]));
      Glued([Update(cells[0], op)], [Transform(cells[0], along[0], op)], [op], w)
  }

  function Glued(cells: seq<Content>, along: seq<Op>, across: seq<Op>, w: Woven): Woven {
    Woven(cells + w.cells, along + w.along, across + w.across)
  }

  /** The same as the loop it is in the source: u walks along the row, p along the new one. */
  method TransformLoop(cells: seq<Content>, along: seq<Op>, op: Op) returns (w: Woven)
    requires |cells| == |along| + 1
    ensures w == Weave(cells, along, op)
  {
    hide Update, Transform;
    var cur, u := op, 0;
    var newCells: seq<Content>, newAlong: seq<Op>, across: seq<Op> := [], [], [];
    assert cells[0..] == cells && along[0..] == along;
    while u < |along|
      invariant 0 <= u <= |along|
      invariant Weave(cells, along, op) == Glued(newCells, newAlong, across, Weave(cells[u..], along[u..], cur))
    {
      assert cells[u..][1..] == cells[u + 1..] && along[u..][1..] == along[u + 1..];
      var redge := Transform(cells[u], cur, along[u]);
      GlueOne(newCells, newAlong, across, Update(cells[u], cur), Transform(cells[u], along[u], cur), cur,
              Weave(cells[u + 1..], along[u + 1..], redge));
      newCells := newCells + [Update(cells[u], cur)];
      newAlong := newAlong + [Transform(cells[u], along[u], cur)];
      across := across + [cur];
      cur := redge;
      u := u + 1;
    }
    w := Woven(newCells + [Update(cells[u], cur)], newAlong, across + [cur]);
    assert newAlong + [] == newAlong;
  }

  lemma GlueOne(cells: seq<Content>, along: seq<Op>, across: seq<Op>, c: Content, a: Op, x: Op, w: Woven)
    ensures Glued(cells, along, across, Glued([c], [a], [x], w)) == Glued(cells + [c], along + [a], across + [x], w)
  {
  }

  predicate Shape(s: Space) {
    && s.rows != [] && s.rows[0].lo == 0 && |s.across| == |s.rows| - 1
    && |s.acrossIds| == |s.rows| - 1 && |s.alongIds| == Hi(Last(s))
    && (forall y {:trigger s.rows[y]} :: 0 <= y < |s.rows| ==> |s.rows[y].cells| == |s.rows[y].along| + 1)
    && (forall y {:trigger Fits(s, y)} :: 0 <= y < |s.across| ==> Fits(s, y))
  }

  /** Row y+1 starts within row y and ends no earlier; an operation leads there from each shared column. */
  predicate Fits(s: Space, y: nat)
    requires y < |s.across| && |s.across| == |s.rows| - 1
  {
    && s.rows[y].lo <= s.rows[y + 1].lo <= Hi(s.rows[y]) <= Hi(s.rows[y + 1])
    && |s.across[y]| == Hi(s.rows[y]) - s.rows[y + 1].lo + 1
  }

  function Last(s: Space): Row
    requires s.rows != []
  {
    s.rows[|s.rows| - 1]
  }

  /** The state at the end of the last row: what the replica shows. */
  function Final(s: Space): Content
    requires Shape(s)
  {
    Last(s).cells[|Last(s).along|]
  }

  /** A new operation of this side, executed at the final state. */
  function Extend(s: Space, op: Op, content: Content, id: OpId): Space
    requires Shape(s)
  {
    var r := Last(s);
    s.(rows := s.rows[|s.rows| - 1 := Row(r.lo, r.cells + [content], r.along + [op])], alongIds := s.alongIds + [id])
  }

  /** An operation of the other side that was generated at column `x` of the last row. */
  function Insert(s: Space, x: nat, op: Op, id: OpId): Space
    requires Shape(s) && Last(s).lo <= x <= Hi(Last(s))
  {
    var r := Last(s);
    var w := Weave(r.cells[x - r.lo..], r.along[x - r.lo..], op);
    Space(s.rows + [Row(x, w.cells, w.along)], s.across + [w.across], s.alongIds, s.acrossIds + [id])
  }

  /** The entering operation as it left the row: transformed against everything after column x. */
  function Transformed(s: Space, x: nat, op: Op): Op
    requires Shape(s) && Last(s).lo <= x <= Hi(Last(s))
  {
    var r := Last(s);
    var w := Weave(r.cells[x - r.lo..], r.along[x - r.lo..], op);
    w.across[|w.across| - 1]
  }

  lemma ExtendKeepsShape(s: Space, op: Op, content: Content, id: OpId)
    requires Shape(s)
    ensures Shape(Extend(s, op, content, id))
  {
    var t := Extend(s, op, content, id);
    forall y | 0 <= y < |t.across|
      ensures Fits(t, y)
    {
      assert Fits(s, y);
    }
  }

  lemma InsertKeepsShape(s: Space, x: nat, op: Op, id: OpId)
    requires Shape(s) && Last(s).lo <= x <= Hi(Last(s))
    ensures Shape(Insert(s, x, op, id))
  {
    var t := Insert(s, x, op, id);
    forall y | 0 <= y < |t.across|
      ensures Fits(t, y)
    {
      if y < |s.across| {
        assert Fits(s, y);
      }
    }
  }

  // ---------------------------------------------------------------- reading the space

  predicate HasCell(s: Space, x: nat, y: nat) {
    y < |s.rows| && s.rows[y].lo <= x <= Hi(s.rows[y])
  }

  predicate HasAlong(s: Space, x: nat, y: nat) {
    y < |s.rows| && s.rows[y].lo <= x < Hi(s.rows[y])
  }

  predicate HasAcross(s: Space, x: nat, y: nat) {
    y + 1 < |s.rows| && s.rows[y + 1].lo <= x <= Hi(s.rows[y])
  }

  function Cell(s: Space, x: nat, y: nat): Content
    requires Shape(s) && HasCell(s, x, y)
  {
    s.rows[y].cells[x - s.rows[y].lo]
  }

  function Along(s: Space, x: nat, y: nat): Op
    requires Shape(s) && HasAlong(s, x, y)
  {
    s.rows[y].along[x - s.rows[y].lo]
  }

  function Across(s: Space, x: nat, y: nat): Op
    requires Shape(s) && HasAcross(s, x, y)
  {
    assert Fits(s, y);
    s.across[y][x - s.rows[y + 1].lo]
  }

  /** The relation at a state, and the effects of the operations leaving it. */
  ghost function St(s: Space, x: nat, y: nat): Eqv
    requires Shape(s) && HasCell(s, x, y)
  {
    Abs(Cell(s, x, y))
  }

  ghost function AlongEffect(s: Space, x: nat, y: nat): Effect
    requires Shape(s) && HasAlong(s, x, y)
  {
    Meaning(St(s, x, y), Along(s, x, y))
  }

  ghost function AcrossEffect(s: Space, x: nat, y: nat): Effect
    requires Shape(s) && HasAcross(s, x, y)
  {
    assert Fits(s, y);
    Meaning(St(s, x, y), Across(s, x, y))
  }

  // ---------------------------------------------------------------- sound spaces

  ghost predicate OpFits(c: Content, op: Op) {
    Valid(c) && OpOk(Abs(c), op) && SingleSplit(op)
  }

  /** `op` leads from text `c` to a text for the resulting relation. */
  ghost predicate Leads(c: Content, op: Op, d: Content) {
    OpFits(c, op) && Valid(d) && Abs(d) == Apply(Abs(c), Meaning(Abs(c), op))
  }

  ghost predicate Chain(cells: seq<Content>, along: seq<Op>) {
    && |cells| == |along| + 1
    && (forall i :: 0 <= i < |cells| ==> Valid(cells[i]))
    && (forall i {:trigger along[i]} :: 0 <= i < |along| ==> Leads(cells[i], along[i], cells[i + 1]))
  }

  /** Both remaining edges of the square with corner `c` and edges `f`, `g` carry what is left of them. */
  ghost predicate Square(c: Content, f: Op, g: Op, d: Content, f': Op, e: Content, g': Op) {
    && Meaning(Abs(d), f') == After(Meaning(Abs(c), f), Meaning(Abs(c), g))
    && Meaning(Abs(e), g') == After(Meaning(Abs(c), g), Meaning(Abs(c), f))
  }

  ghost predicate WovenOk(cells: seq<Content>, along: seq<Op>, w: Woven) {
    && Chain(cells, along) && |w.across| == |w.cells| == |cells| && |w.along| == |along|
    && Chain(w.cells, w.along)
    && (forall i {:trigger w.across[i]} :: 0 <= i < |cells| ==> Leads(cells[i], w.across[i], w.cells[i]))
    && (forall i {:trigger w.along[i]} :: 0 <= i < |along| ==>
          Square(cells[i], along[i], w.across[i], w.cells[i], w.along[i], cells[i + 1], w.across[i + 1]))
  }

  /** One square of the weaving: the transformed operations lead to the same relation. */
  lemma OneSquare(c: Content, f: Op, g: Op, e: Content)
    requires Leads(c, f, e) && OpFits(c, g)
    ensures var d, f', g' := Update(c, g), Transform(c, f, g), Transform(c, g, f);
            && Leads(c, g, d) && OpFits(d, f') && OpFits(e, g')
            && Square(c, f, g, d, f', e, g')
            && Leads(d, f', Update(e, g'))
  {
    hide Valid, Abs, Update, Transform, Meaning, Apply, After, OpOk, SingleSplit, IsEqv;
    var d, f', g' := Update(c, g), Transform(c, f, g), Transform(c, g, f);
    UpdateMeans(c, g);
    TransformMeans(c, f, g);
    TransformMeans(c, g, f);
    UpdateMeans(e, g');
    AbsIsEqv(c);
    SingleSplitsFit(Abs(c), f, g);
    EffectsSquare(Abs(c), Meaning(Abs(c), f), Meaning(Abs(c), g));
  }

  lemma ChainTail(cells: seq<Content>, along: seq<Op>, k: nat)
    requires Chain(cells, along) && k <= |along|
    ensures Chain(cells[k..], along[k..])
  {
    forall i | 0 <= i < |along[k..]|
      ensures Leads(cells[k..][i], along[k..][i], cells[k..][i + 1])
    {
      assert Leads(cells[k + i], along[k + i], cells[k + i + 1]);
    }
  }

  lemma {:induction false} WeaveIsSound(cells: seq<Content>, along: seq<Op>, op: Op)
    requires Chain(cells, along) && OpFits(cells[0], op)
    ensures WovenOk(cells, along, Weave(cells, along, op))
    decreases |along|
  {
    if along == [] {
      UpdateMeans(cells[0], op);
    } else {
      ChainTail(cells, along, 1);
      OneSquare(cells[0], along[0], op, cells[1]);
      var w' := Weave(cells[1..], along[1..], Transform(cells[0], op, along[0]));
      WeaveIsSound(cells[1..], along[1..], Transform(cells[0], op, along[0]));
      WeaveStep(cells, along, op, w');
    }
  }

  lemma WeaveStep(cells: seq<Content>, along: seq<Op>, op: Op, w': Woven)
    requires Chain(cells, along) && OpFits(cells[0], op) && along != []
    requires w' == Weave(cells[1..], along[1..], Transform(cells[0], op, along[0]))
    requires WovenOk(cells[1..], along[1..], w')
    ensures WovenOk(cells, along, Weave(cells, along, op))
  {
    hide Valid, Abs, Update, Transform, Meaning, Apply, After, OpOk, SingleSplit, Square;
    var w := Weave(cells, along, op);
    OneSquare(cells[0], along[0], op, cells[1]);
    assert w'.cells[0] == Update(cells[1], Transform(cells[0], op, along[0]));
    assert w'.across[0] == Transform(cells[0], op, along[0]);
    forall i | 0 <= i < |w.along|
      ensures Leads(w.cells[i], w.along[i], w.cells[i + 1])
      ensures Square(cells[i], along[i], w.across[i], w.cells[i], w.along[i], cells[i + 1], w.across[i + 1])
    {
      if i > 0 {
        assert w.along[i] == w'.along[i - 1];
        assert w.across[i + 1] == w'.across[i];
      }
    }
    forall i | 0 <= i < |cells|
      ensures Leads(cells[i], w.across[i], w.cells[i])
    {
      if i > 0 {
        assert w.across[i] == w'.across[i - 1];
      }
    }
  }

  ghost predicate RowOk(r: Row) {
    Chain(r.cells, r.along)
  }

  /** Row y+1 is row y, from its column on, woven with the operation inserted between them. */
  ghost predicate Stitched(s: Space, y: nat)
    requires Shape(s) && y < |s.across|
  {
    var r, r', n := s.rows[y], s.rows[y + 1], |s.across[y]|;
    assert Fits(s, y);
    WovenOk(r.cells[r'.lo - r.lo..], r.along[r'.lo - r.lo..], Woven(r'.cells[..n], r'.along[..n - 1], s.across[y]))
  }

  ghost predicate Sound(s: Space) {
    && Shape(s)
    && (forall y {:trigger RowOk(s.rows[y])} :: 0 <= y < |s.rows| ==> RowOk(s.rows[y]))
    && (forall y {:trigger Stitched(s, y)} :: 0 <= y < |s.across| ==> Stitched(s, y))
  }

  lemma ExtendKeepsSound(s: Space, op: Op, content: Content, id: OpId)
    requires Sound(s) && Leads(Final(s), op, content)
    ensures Sound(Extend(s, op, content, id))
  {
    hide Valid, Abs, Update, Transform, Meaning, Apply, After, OpOk, SingleSplit, WovenOk;
    var t := Extend(s, op, content, id);
    ExtendKeepsShape(s, op, content, id);
    var last := |s.rows| - 1;
    assert RowOk(s.rows[last]);
    forall y | 0 <= y < |t.rows|
      ensures RowOk(t.rows[y])
    {
      if y < last {
        assert RowOk(s.rows[y]);
      }
    }
    forall y | 0 <= y < |t.across|
      ensures Stitched(t, y)
    {
      assert Stitched(s, y) && Fits(s, y);
      var n := |s.across[y]|;
      assert t.rows[y + 1].cells[..n] == s.rows[y + 1].cells[..n];
      assert t.rows[y + 1].along[..n - 1] == s.rows[y + 1].along[..n - 1];
    }
  }

  lemma InsertedRowOk(s: Space, x: nat, op: Op)
    requires Sound(s) && Last(s).lo <= x <= Hi(Last(s)) && OpFits(Cell(s, x, |s.rows| - 1), op)
    ensures var r, k := Last(s), x - Last(s).lo;
            |r.cells[k..]| == |r.along[k..]| + 1 && WovenOk(r.cells[k..], r.along[k..], Weave(r.cells[k..], r.along[k..], op))
  {
    var r := Last(s);
    var k := x - r.lo;
    assert RowOk(s.rows[|s.rows| - 1]);
    ChainTail(r.cells, r.along, k);
    WeaveIsSound(r.cells[k..], r.along[k..], op);
  }

  lemma InsertStitched(s: Space, x: nat, op: Op, id: OpId, y: nat)
    requires Sound(s) && Last(s).lo <= x <= Hi(Last(s)) && OpFits(Cell(s, x, |s.rows| - 1), op)
    requires Shape(Insert(s, x, op, id)) && y < |s.rows|
    ensures Stitched(Insert(s, x, op, id), y)
  {
    hide Valid, Abs, Update, Transform, Meaning, Apply, After, OpOk, SingleSplit, Weave, WovenOk, OpFits;
    if y < |s.across| {
      assert Stitched(s, y) && Fits(s, y);
    } else {
      InsertedRowOk(s, x, op);
      var r, k := Last(s), x - Last(s).lo;
      var w := Weave(r.cells[k..], r.along[k..], op);
      assert w.cells[..|w.across|] == w.cells && w.along[..|w.across| - 1] == w.along;
    }
  }

  lemma InsertKeepsSound(s: Space, x: nat, op: Op, id: OpId)
    requires Sound(s) && Last(s).lo <= x <= Hi(Last(s)) && OpFits(Cell(s, x, |s.rows| - 1), op)
    ensures Sound(Insert(s, x, op, id))
  {
    hide Valid, Abs, Update, Transform, Meaning, Apply, After, OpOk, SingleSplit, Weave, Stitched;
    var t := Insert(s, x, op, id);
    InsertKeepsShape(s, x, op, id);
    InsertedRowOk(s, x, op);
    forall y | 0 <= y < |t.rows|
      ensures RowOk(t.rows[y])
    {
      if y < |s.rows| {
        assert RowOk(s.rows[y]);
      }
    }
    forall y | 0 <= y < |t.across|
      ensures Stitched(t, y)
    {
      InsertStitched(s, x, op, id, y);
    }
  }

  // What a sound space says about its edges and squares.

  lemma AlongLeads(s: Space, x: nat, y: nat)
    requires Sound(s) && HasAlong(s, x, y)
    ensures HasCell(s, x, y) && HasCell(s, x + 1, y) && OpFits(Cell(s, x, y), Along(s, x, y))
    ensures St(s, x + 1, y) == Apply(St(s, x, y), AlongEffect(s, x, y))
  {
    var r := s.rows[y];
    assert RowOk(r);
    assert Leads(r.cells[x - r.lo], r.along[x - r.lo], r.cells[x - r.lo + 1]);
  }

  lemma AcrossLeads(s: Space, x: nat, y: nat)
    requires Sound(s) && HasAcross(s, x, y)
    ensures HasCell(s, x, y) && HasCell(s, x, y + 1) && OpFits(Cell(s, x, y), Across(s, x, y))
    ensures St(s, x, y + 1) == Apply(St(s, x, y), AcrossEffect(s, x, y))
  {
    hide Valid, Abs, OpOk, SingleSplit, Meaning, Apply, WovenOk, RowOk;
    assert Stitched(s, y) && Fits(s, y);
    var r, r', n := s.rows[y], s.rows[y + 1], |s.across[y]|;
    var i := x - r'.lo;
    AcrossOfWoven(r.cells[r'.lo - r.lo..], r.along[r'.lo - r.lo..], Woven(r'.cells[..n], r'.along[..n - 1], s.across[y]), i);
  }

  lemma AcrossOfWoven(cells: seq<Content>, along: seq<Op>, w: Woven, i: nat)
    requires WovenOk(cells, along, w) && i < |cells|
    ensures Leads(cells[i], w.across[i], w.cells[i])
  {
  }

  lemma SquareOfWoven(cells: seq<Content>, along: seq<Op>, w: Woven, i: nat)
    requires WovenOk(cells, along, w) && i < |along|
    ensures Square(cells[i], along[i], w.across[i], w.cells[i], w.along[i], cells[i + 1], w.across[i + 1])
  {
    var _ := w.along[i];
  }

  lemma SquareEdges(s: Space, x: nat, y: nat)
    requires Shape(s) && HasAlong(s, x, y) && HasAcross(s, x, y)
    ensures HasAlong(s, x, y + 1) && HasAcross(s, x + 1, y)
  {
    assert Fits(s, y);
  }

  lemma SquareCloses(s: Space, x: nat, y: nat)
    requires Sound(s) && HasAlong(s, x, y) && HasAcross(s, x, y)
    ensures HasAlong(s, x, y + 1) && HasAcross(s, x + 1, y)
    ensures AlongEffect(s, x, y + 1) == After(AlongEffect(s, x, y), AcrossEffect(s, x, y))
    ensures AcrossEffect(s, x + 1, y) == After(AcrossEffect(s, x, y), AlongEffect(s, x, y))
  {
    hide Chain, Leads, WovenOk;
    SquareEdges(s, x, y);
    assert Stitched(s, y) && Fits(s, y);
    var r, r', n := s.rows[y], s.rows[y + 1], |s.across[y]|;
    var k, i := r'.lo - r.lo, x - r'.lo;
    SquareOfWoven(r.cells[k..], r.along[k..], Woven(r'.cells[..n], r'.along[..n - 1], s.across[y]), i);
  }

  lemma RowsGrow(s: Space, y: nat, z: nat)
    requires Shape(s) && y <= z < |s.rows|
    ensures s.rows[y].lo <= s.rows[z].lo && Hi(s.rows[y]) <= Hi(s.rows[z])
    decreases z - y
  {
    if y < z {
      RowsGrow(s, y, z - 1);
      assert Fits(s, z - 1);
    }
  }

  // ---------------------------------------------------------------- two spaces of the same pair

  /** A client's space and the server's space for that client describe the same states, read with the two
      directions exchanged, wherever both have built them. */
  ghost predicate StatesAgree(c: Space, s: Space)
    requires Shape(c) && Shape(s)
  {
    forall p: nat, q: nat {:trigger HasCell(c, p, q), HasCell(s, q, p)} ::
      HasCell(c, p, q) && HasCell(s, q, p) ==> St(c, p, q) == St(s, q, p)
  }

  ghost predicate AlongAgrees(c: Space, s: Space)
    requires Shape(c) && Shape(s)
  {
    forall p: nat, q: nat {:trigger HasAlong(c, p, q), HasAcross(s, q, p)} ::
      HasAlong(c, p, q) && HasAcross(s, q, p) ==> AlongEffect(c, p, q) == AcrossEffect(s, q, p)
  }

  ghost predicate Agree(c: Space, s: Space) {
    Sound(c) && Sound(s) && StatesAgree(c, s) && AlongAgrees(c, s) && AlongAgrees(s, c)
  }

  lemma AgreeIsSymmetric(c: Space, s: Space)
    requires Agree(c, s)
    ensures Agree(s, c)
  {
  }

  /** Extending only adds the edge and state past the end of the last row. */
  lemma ExtendReads(c: Space, op: Op, content: Content, id: OpId, p: nat, q: nat)
    requires Shape(c)
    ensures var t := Extend(c, op, content, id);
      && Shape(t)
      && (HasCell(t, p, q) && p <= |c.alongIds| ==> HasCell(c, p, q) && Cell(t, p, q) == Cell(c, p, q))
      && (HasAlong(t, p, q) && p < |c.alongIds| ==> HasAlong(c, p, q) && Along(t, p, q) == Along(c, p, q))
      && (HasAcross(t, p, q) ==> HasCell(t, p, q) && HasAcross(c, p, q) && p <= |c.alongIds| && Across(t, p, q) == Across(c, p, q))
  {
    ExtendKeepsShape(c, op, content, id);
    if q + 1 < |c.rows| {
      RowsGrow(c, q, |c.rows| - 1);
      assert Fits(c, q);
    }
  }

  lemma ExtendKeepsAgreement(c: Space, s: Space, op: Op, content: Content, id: OpId)
    requires Agree(c, s) && Leads(Final(c), op, content) && |s.rows| <= |c.alongIds| + 1
    ensures Agree(Extend(c, op, content, id), s)
  {
    var t := Extend(c, op, content, id);
    ExtendKeepsSound(c, op, content, id);
    forall p: nat, q: nat | HasCell(t, p, q) && HasCell(s, q, p)
      ensures St(t, p, q) == St(s, q, p)
    {
      ExtendReads(c, op, content, id, p, q);
    }
    ExtendKeepsAlong(c, s, op, content, id);
    ExtendKeepsAcross(c, s, op, content, id);
  }

  lemma ExtendKeepsAlong(c: Space, s: Space, op: Op, content: Content, id: OpId)
    requires Shape(c) && Shape(s) && AlongAgrees(c, s) && |s.rows| <= |c.alongIds| + 1
    ensures Shape(Extend(c, op, content, id)) && AlongAgrees(Extend(c, op, content, id), s)
  {
    var t := Extend(c, op, content, id);
    ExtendKeepsShape(c, op, content, id);
    forall p: nat, q: nat | HasAlong(t, p, q) && HasAcross(s, q, p)
      ensures AlongEffect(t, p, q) == AcrossEffect(s, q, p)
    {
      ExtendReads(c, op, content, id, p, q);
    }
  }

  lemma ExtendKeepsAcross(c: Space, s: Space, op: Op, content: Content, id: OpId)
    requires Shape(c) && Shape(s) && AlongAgrees(s, c)
    ensures Shape(Extend(c, op, content, id)) && AlongAgrees(s, Extend(c, op, content, id))
  {
    var t := Extend(c, op, content, id);
    ExtendKeepsShape(c, op, content, id);
    forall p: nat, q: nat | HasAlong(s, q, p) && HasAcross(t, p, q)
      ensures AlongEffect(s, q, p) == AcrossEffect(t, p, q)
    {
      ExtendReads(c, op, content, id, p, q);
    }
  }

  /** What is needed for an operation to enter space `s` at column `x` of its last row, having been executed
      by the other side, whose space is `c`, at the state with the same coordinates. */
  ghost predicate Enters(c: Space, s: Space, x: nat, op: Op) {
    && Agree(c, s) && Last(s).lo <= x <= Hi(Last(s))
    && var p: nat := |s.rows| - 1;
    && HasAlong(c, p, x) && Along(c, p, x) == op && OpFits(Cell(s, x, p), op)
    && forall y :: 0 <= y < |c.rows| ==> c.rows[y].lo <= p
  }

  ghost predicate NewRowAgrees(c: Space, s': Space, p: nat, q: nat)
    requires Shape(c) && Shape(s')
  {
    && (HasCell(c, p + 1, q) && HasCell(s', q, p + 1) ==> St(c, p + 1, q) == St(s', q, p + 1))
    && (HasAlong(c, p, q) && HasAcross(s', q, p) ==> AlongEffect(c, p, q) == AcrossEffect(s', q, p))
  }

  lemma InsertCells(s: Space, x: nat, op: Op, id: OpId)
    requires Shape(s) && Last(s).lo <= x <= Hi(Last(s))
    ensures Shape(Insert(s, x, op, id))
    ensures var s', p := Insert(s, x, op, id), |s.rows| - 1;
      && |s'.rows| == p + 2 && s'.rows[p + 1].lo == x && Hi(s'.rows[p + 1]) == Hi(Last(s))
      && HasAcross(s', x, p) && Across(s', x, p) == op
      && (forall y :: 0 <= y < |s.rows| ==> s'.rows[y] == s.rows[y])
      && (forall y :: 0 <= y < |s.across| ==> s'.across[y] == s.across[y])
  {
    InsertKeepsShape(s, x, op, id);
  }

  /** The next column: all four edges of the square are known on both sides. */
  lemma NextColumn(c: Space, s': Space, p: nat, q: nat)
    requires Sound(c) && Sound(s') && q > 0 && NewRowAgrees(c, s', p, q - 1)
    requires HasAlong(c, p, q - 1) && HasAcross(c, p, q - 1) && HasAlong(s', q - 1, p) && HasAcross(s', q - 1, p)
    requires AcrossEffect(c, p, q - 1) == AlongEffect(s', q - 1, p)
    requires HasCell(c, p, q) && HasCell(s', q, p) && St(c, p, q) == St(s', q, p)
    ensures NewRowAgrees(c, s', p, q)
    ensures HasAcross(c, p + 1, q - 1) && HasAlong(s', q - 1, p + 1)
    ensures AcrossEffect(c, p + 1, q - 1) == AlongEffect(s', q - 1, p + 1)
  {
    hide Apply, After, OpFits, RowOk, Stitched, St, AlongEffect, AcrossEffect, Cell, Along, Across;
    SquareCloses(c, p, q - 1);
    SquareCloses(s', q - 1, p);
    AlongLeads(c, p, q);
    AcrossLeads(s', q, p);
  }

  /** The state and edges of the old last row are those of the row below the new one. */
  lemma RowBelow(c: Space, s: Space, x: nat, op: Op, id: OpId, q: nat)
    requires Enters(c, s, x, op) && x <= q <= Hi(Last(s))
    ensures var s', p := Insert(s, x, op, id), |s.rows| - 1;
      && Sound(s') && HasAcross(s', q, p) && HasCell(s', q, p) && HasCell(s', q, p + 1)
      && (HasCell(c, p, q) ==> St(c, p, q) == St(s', q, p))
      && (q < Hi(Last(s)) ==> HasAlong(s', q, p) && (HasAcross(c, p, q) ==> HasCell(c, p, q) && AcrossEffect(c, p, q) == AlongEffect(s', q, p)))
  {
    hide Valid, Abs, Update, Transform, Meaning, Apply, After, OpOk, SingleSplit, Weave, OpFits, RowOk, Stitched;
    var s', p := Insert(s, x, op, id), |s.rows| - 1;
    InsertKeepsSound(s, x, op, id);
    InsertCells(s, x, op, id);
    assert HasCell(s, q, p) && Cell(s', q, p) == Cell(s, q, p);
    if q < Hi(Last(s)) {
      assert HasAlong(s, q, p) && Along(s', q, p) == Along(s, q, p);
      if HasAcross(c, p, q) {
        AcrossLeads(c, p, q);
      }
    }
  }

  /** The column of the other side's space that the new row must match. */
  lemma ColumnBelow(c: Space, s: Space, x: nat, op: Op, q: nat)
    requires Enters(c, s, x, op) && x <= q < |c.rows|
    ensures var p := |s.rows| - 1; HasAlong(c, p, q) && HasCell(c, p, q) && (q > x ==> HasAcross(c, p, q - 1))
  {
    var p := |s.rows| - 1;
    RowsGrow(c, x, q);
    assert c.rows[q].lo <= p;
    if q > x {
      RowsGrow(c, x, q - 1);
    }
  }

  lemma FirstColumn(c: Space, s: Space, x: nat, op: Op, id: OpId)
    requires Enters(c, s, x, op)
    ensures Sound(Insert(s, x, op, id)) && NewRowAgrees(c, Insert(s, x, op, id), |s.rows| - 1, x)
  {
    var s', p := Insert(s, x, op, id), |s.rows| - 1;
    RowBelow(c, s, x, op, id, x);
    InsertCells(s, x, op, id);
    AlongLeads(c, p, x);
    AcrossLeads(s', x, p);
  }

  /** The edge of the new row that ends at column `q` matches the other side's. */
  ghost predicate NewEdgeAgrees(c: Space, s': Space, p: nat, q: nat)
    requires Shape(c) && Shape(s') && q > 0
  {
    HasAcross(c, p + 1, q - 1) && HasAlong(s', q - 1, p + 1) && AcrossEffect(c, p + 1, q - 1) == AlongEffect(s', q - 1, p + 1)
  }

  lemma LaterColumn(c: Space, s: Space, x: nat, op: Op, id: OpId, q: nat)
    requires Enters(c, s, x, op) && x < q <= Hi(Last(s)) && q < |c.rows|
    requires Sound(Insert(s, x, op, id)) && NewRowAgrees(c, Insert(s, x, op, id), |s.rows| - 1, q - 1)
    ensures NewRowAgrees(c, Insert(s, x, op, id), |s.rows| - 1, q)
    ensures NewEdgeAgrees(c, Insert(s, x, op, id), |s.rows| - 1, q)
  {
    hide Valid, Abs, Update, Transform, Meaning, Apply, After, OpOk, SingleSplit, Insert, OpFits, RowOk, Stitched, St, AlongEffect, AcrossEffect, NewRowAgrees;
    RowBelow(c, s, x, op, id, q);
    ColumnBelow(c, s, x, op, q);
    RowBelow(c, s, x, op, id, q - 1);
    ColumnBelow(c, s, x, op, q - 1);
    NextColumn(c, Insert(s, x, op, id), |s.rows| - 1, q);
  }

  /** Column by column, the new row carries the same effects and states as the other side's column. */
  lemma {:induction false} NewRow(c: Space, s: Space, x: nat, op: Op, id: OpId, q: nat)
    requires Enters(c, s, x, op) && x <= q <= Hi(Last(s)) && q < |c.rows|
    ensures Sound(Insert(s, x, op, id)) && NewRowAgrees(c, Insert(s, x, op, id), |s.rows| - 1, q)
    ensures q > x ==> NewEdgeAgrees(c, Insert(s, x, op, id), |s.rows| - 1, q)
    decreases q
  {
    hide Valid, Abs, Update, Transform, Meaning, Apply, After, OpOk, SingleSplit, Insert, Enters, Sound, NewRowAgrees, NewEdgeAgrees;
    if q == x {
      FirstColumn(c, s, x, op, id);
    } else {
      NewRow(c, s, x, op, id, q - 1);
      LaterColumn(c, s, x, op, id, q);
    }
  }

  // Putting the columns together.

  lemma InsertReads(s: Space, x: nat, op: Op, id: OpId, q: nat, p: nat)
    requires Shape(s) && Last(s).lo <= x <= Hi(Last(s)) && p < |s.rows|
    ensures var s' := Insert(s, x, op, id);
      && Shape(s')
      && (HasCell(s', q, p) ==> HasCell(s, q, p) && Cell(s', q, p) == Cell(s, q, p))
      && (HasAlong(s', q, p) ==> HasAlong(s, q, p) && Along(s', q, p) == Along(s, q, p))
      && (HasAcross(s', q, p) && p + 1 < |s.rows| ==> HasCell(s', q, p) && HasAcross(s, q, p) && Across(s', q, p) == Across(s, q, p))
  {
    InsertCells(s, x, op, id);
    if p + 1 < |s.rows| {
      assert Fits(s, p);
    }
  }

  lemma InsertKeepsStates(c: Space, s: Space, x: nat, op: Op, id: OpId, p: nat, q: nat)
    requires Enters(c, s, x, op) && Sound(Insert(s, x, op, id))
    requires HasCell(c, p, q) && HasCell(Insert(s, x, op, id), q, p)
    ensures St(c, p, q) == St(Insert(s, x, op, id), q, p)
  {
    hide Valid, Abs, Update, Transform, Meaning, Apply, After, OpOk, SingleSplit, Weave, OpFits, RowOk, Stitched;
    InsertCells(s, x, op, id);
    if p < |s.rows| {
      InsertReads(s, x, op, id, q, p);
    } else {
      NewRow(c, s, x, op, id, q);
    }
  }

  lemma InsertKeepsAlong(c: Space, s: Space, x: nat, op: Op, id: OpId, p: nat, q: nat)
    requires Enters(c, s, x, op) && Sound(Insert(s, x, op, id))
    requires HasAlong(c, p, q) && HasAcross(Insert(s, x, op, id), q, p)
    ensures AlongEffect(c, p, q) == AcrossEffect(Insert(s, x, op, id), q, p)
  {
    hide Valid, Abs, Update, Transform, Meaning, Apply, After, OpOk, SingleSplit, Weave, OpFits, RowOk, Stitched;
    InsertCells(s, x, op, id);
    if p + 1 < |s.rows| {
      InsertReads(s, x, op, id, q, p);
    } else {
      NewRow(c, s, x, op, id, q);
    }
  }

  lemma InsertKeepsAcross(c: Space, s: Space, x: nat, op: Op, id: OpId, p: nat, q: nat)
    requires Enters(c, s, x, op) && Sound(Insert(s, x, op, id))
    requires HasAcross(c, p, q) && HasAlong(Insert(s, x, op, id), q, p)
    ensures AcrossEffect(c, p, q) == AlongEffect(Insert(s, x, op, id), q, p)
  {
    hide Valid, Abs, Update, Transform, Meaning, Apply, After, OpOk, SingleSplit, Weave, OpFits, RowOk, Stitched;
    InsertCells(s, x, op, id);
    if p < |s.rows| {
      InsertReads(s, x, op, id, q, p);
      AcrossLeads(c, p, q);
    } else {
      NewRow(c, s, x, op, id, q + 1);
    }
  }

  /** Both spaces of a pair still agree after one of them has received the other's operation. */
  lemma InsertKeepsAgreement(c: Space, s: Space, x: nat, op: Op, id: OpId)
    requires Enters(c, s, x, op)
    ensures Agree(c, Insert(s, x, op, id))
  {
    var s' := Insert(s, x, op, id);
    InsertKeepsSound(s, x, op, id);
    forall p: nat, q: nat | HasCell(c, p, q) && HasCell(s', q, p)
      ensures St(c, p, q) == St(s', q, p)
    {
      InsertKeepsStates(c, s, x, op, id, p, q);
    }
    forall p: nat, q: nat | HasAlong(c, p, q) && HasAcross(s', q, p)
      ensures AlongEffect(c, p, q) == AcrossEffect(s', q, p)
    {
      InsertKeepsAlong(c, s, x, op, id, p, q);
    }
    forall p: nat, q: nat | HasAcross(c, p, q) && HasAlong(s', q, p)
      ensures AcrossEffect(c, p, q) == AlongEffect(s', q, p)
    {
      InsertKeepsAcross(c, s, x, op, id, p, q);
    }
  }
}
