/** The operational transformation of UNION against SPLIT, and the square it must close: whichever of two
    concurrent operations is applied first, applying the other one transformed gives the same relation. */
module UfsTransform {
  import opened UfsPartition

  predicate Multi(a: Arg) {
    a.Names? && |a.tokens| > 1
  }

  /** findstr(arg, s): the first name of `s` occurs in `arg`. */
  predicate FindFirst(a: Arg, s: Arg) {
    a.Names? && s.Names? && s.tokens != [] && s.tokens[0] in a.tokens
  }

  /** The class cpltClass picks: it holds the first name of `s`, and is longer than `s` or as long. */
  function CpltIndex(c: Content, s: seq<Elem>): (k: int)
    requires s != []
    ensures -1 <= k < |c|
  {
    if c == [] then -1
    else if && ((|s| < |c[0]| && TextLen(s) < TextLen(c[0])) || (|s| == |c[0]| && TextLen(s) == TextLen(c[0])))
            && s[0] in c[0] then 0
    else
      var k := CpltIndex(c[1..], s);
      if k < 0 then -1 else k + 1
  }

  /** cpltClass in its second mode: the first element of the class of `s` outside `s`, or "*" when `s` is
      the whole class. */
  function CpltClass(c: Content, s: Arg): Arg {
    if s.Star? || s.tokens == [] then Star
    else
      var k := CpltIndex(c, s.tokens);
      if k < 0 then Names([""])
      else if TextLen(c[k]) == TextLen(s.tokens) then Star
      else
        var rest := Del(c[k], s.tokens);
        Names([if rest == [] then "" else rest[0]])
  }

  /** The four cases of otUfs that change a union because of a concurrent split. */
  function TransformUnion(c: Content, a: Arg, b: Arg, s: Arg): Op {
    if !Multi(a) && !Multi(b) then
      if a == b || a.Star? || b.Star? then Union(a, b)
      else if a == s then Union(CpltClass(c, s), b)
      else if b == s then Union(a, CpltClass(c, s))
      else Union(a, b)
    else
      Union(if Redirected(a, s) then CpltClass(c, s) else a, if Redirected(b, s) then CpltClass(c, s) else b)
  }

  predicate Redirected(a: Arg, s: Arg) {
    if Multi(a) then FindFirst(a, s) else a == s
  }

  /** otUfs with the flag OT_UNION: op1 as it must be executed after op2. */
  function Transform(c: Content, op1: Op, op2: Op): Op {
    if op1.Union? && op2.Split? then TransformUnion(c, op1.a, op1.b, op2.s) else op1
  }

  // ---------------------------------------------------------------- the transformation on effects

  function Grown(x: set<Elem>, f: Effect): set<Elem> {
    match f
    case Nop => x
    case Join(p, q) => if x == p || x == q then p + q else x
    case Cut(s) => x - s
  }

  /** What is left of effect `f` after effect `g`. */
  function After(f: Effect, g: Effect): Effect {
    if f.Join? then
      var x, y := Grown(f.x, g), Grown(f.y, g);
      if x == y || x == {} || y == {} then Nop else Join(x, y)
    else f
  }

  ghost predicate EffectOk(r: Eqv, f: Effect) {
    match f
    case Nop => true
    case Join(x, y) => x != y && (exists e :: e in r && r[e] == x) && (exists e :: e in r && r[e] == y)
    case Cut(s) => s != {} && exists e :: e in r && s <= r[e]
  }

  /** Two cuts do not get in each other's way. */
  predicate CutsFit(f: Effect, g: Effect) {
    f.Cut? && g.Cut? ==> f.s * g.s == {} || f.s == g.s
  }

  lemma NothingShared(a: set<Elem>, b: set<Elem>)
    requires a * b == {}
    ensures a - b == a && b - a == b
  {
    assert forall x :: x in a && x in b ==> x in a * b;
  }

  /** Square for effects, at one element. */
  lemma SquareAt(r: Eqv, f: Effect, g: Effect, e: Elem)
    requires IsEqv(r) && EffectOk(r, f) && EffectOk(r, g) && CutsFit(f, g) && e in r
    ensures Apply(Apply(r, f), After(g, f))[e] == Apply(Apply(r, g), After(f, g))[e]
  {
    if f.Join? && g.Join? {
      JoinJoin(r, f, g, e);
    } else if f.Join? && g.Cut? {
      JoinCut(r, f, g, e);
    } else if f.Cut? && g.Join? {
      JoinCut(r, g, f, e);
    } else if f.Cut? && g.Cut? && f.s != g.s {
      NothingShared(f.s, g.s);
      assert (r[e] - f.s) - g.s == (r[e] - g.s) - f.s;
    }
  }

  lemma ClassesAreDisjoint(r: Eqv, x: set<Elem>, y: set<Elem>)
    requires IsEqv(r) && (exists e :: e in r && r[e] == x) && (exists e :: e in r && r[e] == y) && x != y
    ensures x !! y && x != {} && y != {}
    ensures forall e :: e in r ==> (e in x <==> r[e] == x) && (e in y <==> r[e] == y)
  {
    var a :| a in r && r[a] == x;
    var b :| b in r && r[b] == y;
    forall e | e in x
      ensures e !in y
    {
      assert r[e] == x;
    }
  }

  lemma JoinJoin(r: Eqv, f: Effect, g: Effect, e: Elem)
    requires IsEqv(r) && EffectOk(r, f) && EffectOk(r, g) && e in r && f.Join? && g.Join?
    ensures Apply(Apply(r, f), After(g, f))[e] == Apply(Apply(r, g), After(f, g))[e]
  {
    ClassesAreDisjoint(r, f.x, f.y);
    ClassesAreDisjoint(r, g.x, g.y);
  }

  lemma JoinCut(r: Eqv, f: Effect, g: Effect, e: Elem)
    requires IsEqv(r) && EffectOk(r, f) && EffectOk(r, g) && e in r && f.Join? && g.Cut?
    ensures Apply(Apply(r, f), After(g, f))[e] == Apply(Apply(r, g), After(f, g))[e]
  {
    hide IsEqv;
    var x, y, s := f.x, f.y, g.s;
    ClassesAreDisjoint(r, x, y);
    CutOfUnion(x, y, s);
    if e in s {
      assert e !in x - s && e !in y - s;
    } else if e in x {
      assert e in x - s && r[e] == x;
    } else if e in y {
      assert e in y - s && r[e] == y;
    }
  }

  lemma CutOfUnion(x: set<Elem>, y: set<Elem>, s: set<Elem>)
    ensures (x + y) - s == (x - s) + (y - s)
    ensures x - s == {} || x - s == y - s ==> (x + y) - s == y - s
    ensures y - s == {} || x - s == y - s ==> (x + y) - s == x - s
  {
  }

  lemma ApplyKeys(r: Eqv, f: Effect)
    ensures Apply(r, f).Keys == r.Keys
  {
  }

  /** What is left of two effects closes the square exactly when they are not cuts of overlapping, different sets. */
  lemma EffectsSquare(r: Eqv, f: Effect, g: Effect)
    requires IsEqv(r) && EffectOk(r, f) && EffectOk(r, g)
    ensures Apply(Apply(r, f), After(g, f)) == Apply(Apply(r, g), After(f, g)) <==> CutsFit(f, g)
  {
    hide IsEqv, EffectOk, Apply, After;
    if CutsFit(f, g) {
      ApplyKeys(r, f);
      ApplyKeys(r, g);
      ApplyKeys(Apply(r, f), After(g, f));
      ApplyKeys(Apply(r, g), After(f, g));
      forall e | e in r
        ensures Apply(Apply(r, f), After(g, f))[e] == Apply(Apply(r, g), After(f, g))[e]
      {
        SquareAt(r, f, g, e);
      }
    } else {
      assert f.s * g.s != {};
      OverlappingCuts(r, f.s, g.s);
    }
  }

  lemma OverlappingCuts(r: Eqv, s1: set<Elem>, s2: set<Elem>)
    requires IsEqv(r) && EffectOk(r, Cut(s1)) && EffectOk(r, Cut(s2)) && s1 * s2 != {} && s1 != s2
    ensures Apply(Apply(r, Cut(s1)), After(Cut(s2), Cut(s1))) != Apply(Apply(r, Cut(s2)), After(Cut(s1), Cut(s2)))
  {
    var e :| e in s1 && e in s2;
    assert e in r;
    assert Apply(Apply(r, Cut(s1)), Cut(s2))[e] == s2 && Apply(Apply(r, Cut(s2)), Cut(s1))[e] == s1;
  }

  // ---------------------------------------------------------------- transforming text and transforming effects

  /** Splits name a single element; the transformation closes the square for these. */
  predicate SingleSplit(op: Op) {
    op.Split? ==> op.s.Names? && |op.s.tokens| == 1
  }

  lemma ApplyKeepsEqv(r: Eqv, f: Effect)
    requires IsEqv(r) && EffectOk(r, f)
    ensures IsEqv(Apply(r, f)) && Apply(r, f).Keys == r.Keys
  {
    if f.Join? {
      ClassesAreDisjoint(r, f.x, f.y);
      var a :| a in r && r[a] == f.x;
      var b :| b in r && r[b] == f.y;
    }
  }

  lemma MeaningIsOk(r: Eqv, op: Op)
    requires IsEqv(r) && OpOk(r, op)
    ensures EffectOk(r, Meaning(r, op)) && (SingleSplit(op) && op.Split? ==> Meaning(r, op) == Cut({op.s.tokens[0]}))
  {
    if op.Split? {
      assert op.s.tokens[0] in ToSet(op.s.tokens);
    }
  }

  lemma SingleSplitsFit(r: Eqv, op1: Op, op2: Op)
    requires IsEqv(r) && OpOk(r, op1) && OpOk(r, op2) && SingleSplit(op1) && SingleSplit(op2)
    ensures EffectOk(r, Meaning(r, op1)) && EffectOk(r, Meaning(r, op2)) && CutsFit(Meaning(r, op1), Meaning(r, op2))
  {
    MeaningIsOk(r, op1);
    MeaningIsOk(r, op2);
  }

  /** `a2` stands for `a` once `s` has been cut out: it names what is left of the class, if anything is. */
  ghost predicate ArgFollows(r: Eqv, s: Elem, a: Arg, a2: Arg)
    requires a.Names? ==> a.tokens != [] && a.tokens[0] in r
  {
    var r2 := Apply(r, Cut({s}));
    if a.Star? then a2.Star?
    else if a2.Star? then r[a.tokens[0]] == {s}
    else ArgOk(r2, a2) && r2[a2.tokens[0]] == r[a.tokens[0]] - {s}
  }

  lemma UnionFollows(r: Eqv, s: Elem, a: Arg, b: Arg, a2: Arg, b2: Arg)
    requires IsEqv(r) && s in r && OpOk(r, Union(a, b)) && ArgFollows(r, s, a, a2) && ArgFollows(r, s, b, b2)
    ensures var r2 := Apply(r, Cut({s}));
            OpOk(r2, Union(a2, b2)) && Meaning(r2, Union(a2, b2)) == After(Meaning(r, Union(a, b)), Cut({s}))
  {
    var r2 := Apply(r, Cut({s}));
    assert EffectOk(r, Cut({s}));
    ApplyKeepsEqv(r, Cut({s}));
    if a.Names? && b.Names? && r[a.tokens[0]] != r[b.tokens[0]] {
      ClassesAreDisjoint(r, r[a.tokens[0]], r[b.tokens[0]]);
    }
  }

  lemma ArgUntouched(r: Eqv, s: Elem, a: Arg)
    requires IsEqv(r) && s in r && ArgOk(r, a) && (a.Names? ==> s !in a.tokens)
    ensures ArgFollows(r, s, a, a)
  {
    if a.Names? {
      assert a.tokens[0] != s;
    }
  }

  lemma {:induction false} CpltFindsClass(c: Content, s: Elem)
    requires Valid(c)
    ensures CpltIndex(c, [s]) == ClassIndex(c, s)
  {
    if c != [] {
      if s in c[0] {
        ClassTextIsLonger(c[0], s);
      } else {
        TailValid(c);
        CpltFindsClass(c[1..], s);
      }
    }
  }

  lemma TailValid(c: Content)
    requires Valid(c) && c != []
    ensures Valid(c[1..])
  {
    assert forall i :: 0 <= i < |c[1..]| ==> c[1..][i] == c[i + 1];
  }

  lemma ClassTextIsLonger(class_: seq<Elem>, s: Elem)
    requires Distinct(class_) && s in class_
    ensures if |class_| == 1 then TextLen(class_) == TextLen([s]) else TextLen([s]) < TextLen(class_)
  {
    if |class_| == 1 {
      assert class_ == [s];
    } else {
      assert ToSet([s]) == {s};
      WeightIsTextLen(class_);
      WeightIsTextLen([s]);
      DelWeight(class_, [s]);
      DelSet(class_, [s]);
      var other := if class_[0] == s then class_[1] else class_[0];
      assert other in ToSet(class_) && other in ToSet(Del(class_, [s]));
    }
  }

  /** A redirected argument follows its class. */
  lemma CpltFollows(c: Content, s: Elem, a: Arg)
    requires Valid(c) && s in Elems(c) && ArgOk(Abs(c), a) && a.Names? && s in a.tokens
    ensures ArgFollows(Abs(c), s, a, CpltClass(c, Names([s])))
  {
    hide Valid, Abs, Elems, CpltClass;
    var r := Abs(c);
    AbsIsEqv(c);
    CpltOfOne(c, s);
    assert r[a.tokens[0]] == r[s];
  }

  /** What is left when one name is split off: nothing, or a name of its class. */
  lemma CpltOfOne(c: Content, s: Elem)
    requires Valid(c) && s in Elems(c)
    ensures s in Abs(c)
    ensures var t := CpltClass(c, Names([s]));
      if t.Star? then Abs(c)[s] == {s}
      else |t.tokens| == 1 && t.tokens[0] in Abs(c) && t.tokens[0] != s && Abs(c)[t.tokens[0]] == Abs(c)[s]
  {
    var k := ClassIndex(c, s);
    CpltFindsClass(c, s);
    ClassOfMember(c, k, s);
    assert Distinct(c[k]);
    hide Valid, Abs;
    ClassTextIsLonger(c[k], s);
    assert ToSet([s]) == {s};
    SameTextIsSameSet(c[k], [s]);
    DelSet(c[k], [s]);
    var rest := Del(c[k], [s]);
    if rest != [] {
      assert rest[0] in ToSet(rest);
      ClassOfMember(c, k, rest[0]);
      KnownInAbs(c, rest[0]);
    }
    KnownInAbs(c, s);
  }

  lemma KnownInAbs(c: Content, e: Elem)
    requires e in Elems(c)
    ensures e in Abs(c)
  {
  }

  lemma TransformUnionFollows(c: Content, a: Arg, b: Arg, s: Elem)
    requires Valid(c) && s in Elems(c) && OpOk(Abs(c), Union(a, b))
    ensures var r2, u := Apply(Abs(c), Cut({s})), TransformUnion(c, a, b, Names([s]));
            OpOk(r2, u) && Meaning(r2, u) == After(Meaning(Abs(c), Union(a, b)), Cut({s}))
  {
    var r := Abs(c);
    AbsIsEqv(c);
    var u := TransformUnion(c, a, b, Names([s]));
    if !Multi(a) && !Multi(b) && (a == b || a.Star? || b.Star?) {
      NopStaysNop(r, s, a, b);
    } else {
      FollowsEither(c, s, a, u.a);
      FollowsEither(c, s, b, u.b);
      UnionFollows(r, s, a, b, u.a, u.b);
    }
  }

  lemma FollowsEither(c: Content, s: Elem, a: Arg, a2: Arg)
    requires Valid(c) && s in Elems(c) && ArgOk(Abs(c), a)
    requires a2 == if Redirected(a, Names([s])) then CpltClass(c, Names([s])) else a
    ensures ArgFollows(Abs(c), s, a, a2)
  {
    AbsIsEqv(c);
    if Redirected(a, Names([s])) {
      CpltFollows(c, s, a);
    } else {
      assert a.Names? && !Multi(a) ==> a.tokens == [a.tokens[0]];
      ArgUntouched(Abs(c), s, a);
    }
  }

  lemma NopStaysNop(r: Eqv, s: Elem, a: Arg, b: Arg)
    requires IsEqv(r) && s in r && OpOk(r, Union(a, b)) && !Multi(a) && !Multi(b) && (a == b || a.Star? || b.Star?)
    ensures var r2 := Apply(r, Cut({s})); OpOk(r2, Union(a, b)) && Meaning(r2, Union(a, b)) == Nop
    ensures Meaning(r, Union(a, b)) == Nop
  {
    assert EffectOk(r, Cut({s}));
    ApplyKeepsEqv(r, Cut({s}));
  }

  lemma GrownMeans(r: Eqv, g: Effect, e: Elem)
    requires IsEqv(r) && EffectOk(r, g) && !g.Cut? && e in r
    ensures Apply(r, g)[e] == Grown(r[e], g)
  {
    if g.Join? {
      ClassesAreDisjoint(r, g.x, g.y);
    }
  }

  /** A union is left as it is by a concurrent union, and still means what is left of its effect. */
  lemma UnionAfterUnion(r: Eqv, a: Arg, b: Arg, g: Effect)
    requires IsEqv(r) && OpOk(r, Union(a, b)) && EffectOk(r, g) && !g.Cut?
    ensures var r2 := Apply(r, g);
            OpOk(r2, Union(a, b)) && Meaning(r2, Union(a, b)) == After(Meaning(r, Union(a, b)), g)
  {
    ApplyKeepsEqv(r, g);
    if a.Names? {
      GrownMeans(r, g, a.tokens[0]);
      ArgAfterJoin(r, a, g);
    }
    if b.Names? {
      GrownMeans(r, g, b.tokens[0]);
      ArgAfterJoin(r, b, g);
    }
  }

  lemma ArgAfterJoin(r: Eqv, a: Arg, g: Effect)
    requires IsEqv(r) && ArgOk(r, a) && EffectOk(r, g) && !g.Cut? && a.Names?
    ensures ArgOk(Apply(r, g), a)
  {
    GrownMeans(r, g, a.tokens[0]);
  }

  lemma SplitUntouched(r: Eqv, s: Arg, g: Effect)
    requires IsEqv(r) && OpOk(r, Split(s)) && |s.tokens| == 1 && EffectOk(r, g)
    ensures OpOk(Apply(r, g), Split(s)) && Meaning(Apply(r, g), Split(s)) == After(Meaning(r, Split(s)), g)
  {
    ApplyKeepsEqv(r, g);
  }

  /** The transformed operation is acceptable after the other one, and means exactly what is left of the
      original operation's effect. */
  lemma TransformMeans(c: Content, op1: Op, op2: Op)
    requires Valid(c) && OpOk(Abs(c), op1) && OpOk(Abs(c), op2) && SingleSplit(op1) && SingleSplit(op2)
    ensures var r2, t := Apply(Abs(c), Meaning(Abs(c), op2)), Transform(c, op1, op2);
            && OpOk(r2, t) && SingleSplit(t)
            && Meaning(r2, t) == After(Meaning(Abs(c), op1), Meaning(Abs(c), op2))
  {
    hide Valid, CpltClass;
    var r := Abs(c);
    AbsIsEqv(c);
    MeaningIsOk(r, op2);
    match op1
    case Split(s) => SplitUntouched(r, s, Meaning(r, op2));
    case Union(a, b) =>
      match op2
      case Union(_, _) => UnionAfterUnion(r, a, b, Meaning(r, op2));
      case Split(s) =>
        assert s == Names([s.tokens[0]]) && ToSet(s.tokens) == {s.tokens[0]};
        TransformUnionFollows(c, a, b, s.tokens[0]);
  }

  /** The square: for acceptable concurrent operations whose splits name one element, both orders end in the
      same relation, and in well-formed texts. */
  lemma TransformationSquare(c: Content, op1: Op, op2: Op)
    requires Valid(c) && OpOk(Abs(c), op1) && OpOk(Abs(c), op2) && SingleSplit(op1) && SingleSplit(op2)
    ensures var left := Update(Update(c, op1), Transform(c, op2, op1));
            var right := Update(Update(c, op2), Transform(c, op1, op2));
            Valid(left) && Valid(right) && Abs(left) == Abs(right)
  {
    var r := Abs(c);
    AbsIsEqv(c);
    UpdateMeans(c, op1);
    UpdateMeans(c, op2);
    TransformMeans(c, op1, op2);
    TransformMeans(c, op2, op1);
    UpdateMeans(Update(c, op1), Transform(c, op2, op1));
    UpdateMeans(Update(c, op2), Transform(c, op1, op2));
    SingleSplitsFit(r, op1, op2);
    EffectsSquare(r, Meaning(r, op1), Meaning(r, op2));
  }
}
