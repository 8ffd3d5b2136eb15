/** SPLIT also accepts several names at once. For these the transformation does not always close the square;
    this is exactly when it does. */
module UfsSets {
  import opened UfsPartition
  import opened UfsTransform

  // ---------------------------------------------------------------- union against split

  ghost predicate SplitOk(c: Content, s: seq<Elem>) {
    Valid(c) && OpOk(Abs(c), Split(Names(s)))
  }

  lemma SplitFacts(c: Content, s: seq<Elem>) returns (k: nat)
    requires SplitOk(c, s)
    ensures k < |c| && ClassIndex(c, s[0]) == k && ToSet(s) <= ToSet(c[k]) && Distinct(s) && Distinct(c[k])
    ensures Abs(c)[s[0]] == ToSet(c[k])
  {
    k := ClassIndex(c, s[0]);
    ClassOfMember(c, k, s[0]);
  }

  lemma SubsetText(class_: seq<Elem>, s: seq<Elem>)
    requires Distinct(class_) && Distinct(s) && s != [] && class_ != [] && ToSet(s) <= ToSet(class_)
    ensures if ToSet(s) == ToSet(class_) then |s| == |class_| && TextLen(s) == TextLen(class_)
            else |s| < |class_| && TextLen(s) < TextLen(class_)
  {
    WeightIsTextLen(class_);
    WeightIsTextLen(s);
    DelWeight(class_, s);
    DelSet(class_, s);
    DelLength(class_, s);
    NonemptySet(Del(class_, s));
    SubsetDifference(ToSet(class_), ToSet(s));
  }

  lemma {:induction false} DelLength(class_: seq<Elem>, del: seq<Elem>)
    requires Distinct(class_) && Distinct(del) && ToSet(del) <= ToSet(class_)
    ensures |class_| == |del| + |Del(class_, del)|
  {
    NonemptySet(del);
    if class_ != [] {
      var rest := class_[1..];
      assert ToSet(class_) == {class_[0]} + ToSet(rest);
      if class_[0] in del {
        RemoveOneSet(del, class_[0]);
        RemoveOneLength(del, class_[0]);
        DelLength(rest, RemoveOne(del, class_[0]));
      } else {
        DelLength(rest, del);
      }
    }
  }

  lemma {:induction false} RemoveOneLength(s: seq<Elem>, e: Elem)
    requires e in s
    ensures |RemoveOne(s, e)| == |s| - 1
  {
    if s[0] != e {
      assert s == [s[0]] + s[1..];
      RemoveOneLength(s[1..], e);
    }
  }

  lemma {:induction false} CpltFindsSet(c: Content, s: seq<Elem>)
    requires Valid(c) && s != [] && Distinct(s)
    requires forall k :: 0 <= k < |c| && s[0] in c[k] ==> ToSet(s) <= ToSet(c[k])
    ensures CpltIndex(c, s) == ClassIndex(c, s[0])
  {
    if c != [] {
      if s[0] in c[0] {
        SubsetText(c[0], s);
      } else {
        TailValid(c);
        CpltFindsSet(c[1..], s);
      }
    }
  }

  /** What a redirected argument becomes: the class was all split off, or a name outside the split set. */
  lemma CpltOfSet(c: Content, s: seq<Elem>)
    requires SplitOk(c, s)
    ensures var t := CpltClass(c, Names(s));
      if Abs(c)[s[0]] == ToSet(s) then t == Star
      else && t.Names? && t.tokens != [] && t.tokens[0] in Abs(c)
           && t.tokens[0] !in ToSet(s) && Abs(c)[t.tokens[0]] == Abs(c)[s[0]]
  {
    var k := SplitFacts(c, s);
    forall i | 0 <= i < |c| && s[0] in c[i]
      ensures ToSet(s) <= ToSet(c[i])
    {
      SameClass(c, i, k, s[0]);
    }
    CpltFindsSet(c, s);
    SubsetText(c[k], s);
    SameTextIsSameSet(c[k], s);
    DelSet(c[k], s);
    var rest := Del(c[k], s);
    if rest != [] {
      assert rest[0] in ToSet(rest);
      ClassOfMember(c, k, rest[0]);
    }
  }

  /** The first names of the rewritten union: of the same class as before, unless it became "*". */
  lemma RepresentativeAfter(c: Content, s: seq<Elem>, a: Arg, a2: Arg)
    requires SplitOk(c, s) && ArgOk(Abs(c), a)
    requires a2 == a || (a2 == CpltClass(c, Names(s)) && Redirected(a, Names(s)))
    ensures Known(Abs(c), a2)
    ensures a.Star? ==> a2.Star?
    ensures a.Names? && a2.Names? ==> Abs(c)[a2.tokens[0]] == Abs(c)[a.tokens[0]]
    ensures a.Names? && a2.Names? && a2.tokens[0] in ToSet(s) ==> a2 == a
    ensures a.Names? && a2.Star? ==> Abs(c)[a.tokens[0]] == ToSet(s)
  {
    AbsIsEqv(c);
    if a2 != a {
      CpltOfSet(c, s);
      assert s[0] in a.tokens;
    }
  }

  /** Cutting out a set commutes with a join of two representatives exactly when the set separates neither. */
  lemma JoinThenCut(r: Eqv, s: set<Elem>, a: Elem, b: Elem, a2: Elem, b2: Elem, w: Elem)
    requires IsEqv(r) && w in s && w in r && s <= r[w] && a in r && b in r && a2 in r && b2 in r
    requires r[a2] == r[a] && r[b2] == r[b] && (a2 in s ==> a2 == a) && (b2 in s ==> b2 == b)
    ensures var left := Apply(Apply(r, if r[a] == r[b] then Nop else Join(r[a], r[b])), Cut(s));
            var r2 := Apply(r, Cut(s));
            var right := Apply(r2, if r2[a2] == r2[b2] then Nop else Join(r2[a2], r2[b2]));
            left == right <==> (a2 in s <==> b2 in s)
  {
    var left := Apply(Apply(r, if r[a] == r[b] then Nop else Join(r[a], r[b])), Cut(s));
    var r2 := Apply(r, Cut(s));
    var right := Apply(r2, if r2[a2] == r2[b2] then Nop else Join(r2[a2], r2[b2]));
    if a2 in s && b2 !in s {
      assert a2 in left && left[a2] == s && b2 in right[a2];
    } else if b2 in s && a2 !in s {
      assert b2 in left && left[b2] == s && a2 in right[b2];
    } else {
      forall e | e in r
        ensures left[e] == right[e]
      {
        JoinThenCutAt(r, s, a, b, a2, b2, w, e);
      }
    }
  }

  lemma JoinThenCutAt(r: Eqv, s: set<Elem>, a: Elem, b: Elem, a2: Elem, b2: Elem, w: Elem, e: Elem)
    requires IsEqv(r) && w in s && w in r && s <= r[w] && a in r && b in r && a2 in r && b2 in r && e in r
    requires r[a2] == r[a] && r[b2] == r[b] && (a2 in s ==> a2 == a) && (b2 in s ==> b2 == b)
    requires a2 in s <==> b2 in s
    ensures var left := Apply(Apply(r, if r[a] == r[b] then Nop else Join(r[a], r[b])), Cut(s));
            var r2 := Apply(r, Cut(s));
            var right := Apply(r2, if r2[a2] == r2[b2] then Nop else Join(r2[a2], r2[b2]));
            left[e] == right[e]
  {
    if r[a] != r[b] {
      ClassesAreDisjoint(r, r[a], r[b]);
      assert a2 !in s && b2 !in s;
    }
  }

  /** When the whole class is split off, the rewritten union does nothing, rightly. */
  lemma WholeClassCut(r: Eqv, s: set<Elem>, a: Elem, b: Elem)
    requires IsEqv(r) && a in r && b in r && (r[a] == s || r[b] == s)
    ensures Apply(Apply(r, if r[a] == r[b] then Nop else Join(r[a], r[b])), Cut(s)) == Apply(r, Cut(s))
  {
    if r[a] != r[b] {
      ClassesAreDisjoint(r, r[a], r[b]);
      var left := Apply(Apply(r, Join(r[a], r[b])), Cut(s));
      forall e | e in r
        ensures left[e] == Apply(r, Cut(s))[e]
      {
      }
    }
  }

  /** The union's argument is left alone although its first name is split off. */
  predicate Stuck(a: Arg, s: seq<Elem>) {
    a.Names? && a.tokens != [] && a.tokens[0] in s && !Redirected(a, Names(s))
  }

  /** When a union and a split close their square: the union does nothing, or the class of a redirected argument is
      split off as a whole, or the split takes the first names of both arguments along or of neither. */
  ghost predicate SquareCloses(c: Content, a: Arg, b: Arg, s: seq<Elem>)
    requires SplitOk(c, s)
  {
    || a.Star? || b.Star?
    || ((Redirected(a, Names(s)) || Redirected(b, Names(s))) && Abs(c)[s[0]] == ToSet(s))
    || (Stuck(a, s) <==> Stuck(b, s))
  }

  lemma NopIsIdentity(r: Eqv)
    ensures Apply(r, Nop) == r
  {
  }

  lemma CutKeys(r: Eqv, s: set<Elem>)
    ensures Apply(r, Cut(s)).Keys == r.Keys
  {
  }

  lemma SplitStaysOk(r: Eqv, s: seq<Elem>, g: Effect)
    requires IsEqv(r) && OpOk(r, Split(Names(s))) && EffectOk(r, g) && !g.Cut?
    ensures OpOk(Apply(r, g), Split(Names(s)))
  {
    GrownMeans(r, g, s[0]);
  }

  ghost function UnionFirst(c: Content, a: Arg, b: Arg, s: seq<Elem>): Content {
    Update(Update(c, Union(a, b)), Transform(c, Split(Names(s)), Union(a, b)))
  }

  ghost function SplitFirst(c: Content, a: Arg, b: Arg, s: seq<Elem>): Content {
    Update(Update(c, Split(Names(s))), Transform(c, Union(a, b), Split(Names(s))))
  }

  lemma UnionFirstMeans(c: Content, a: Arg, b: Arg, s: seq<Elem>)
    requires SplitOk(c, s) && OpOk(Abs(c), Union(a, b))
    ensures Valid(UnionFirst(c, a, b, s))
    ensures Abs(UnionFirst(c, a, b, s)) == Apply(Apply(Abs(c), Meaning(Abs(c), Union(a, b))), Cut(ToSet(s)))
  {
    AbsIsEqv(c);
    UpdateMeans(c, Union(a, b));
    SplitStaysOk(Abs(c), s, Meaning(Abs(c), Union(a, b)));
    UpdateMeans(Update(c, Union(a, b)), Split(Names(s)));
  }

  lemma SplitFirstMeans(c: Content, a: Arg, b: Arg, s: seq<Elem>)
    requires SplitOk(c, s) && OpOk(Abs(c), Union(a, b))
    ensures var u, r2 := TransformUnion(c, a, b, Names(s)), Apply(Abs(c), Cut(ToSet(s)));
      && Known(Abs(c), u.a) && Known(Abs(c), u.b) && Valid(SplitFirst(c, a, b, s))
      && Abs(SplitFirst(c, a, b, s)) == Apply(r2, Meaning(r2, u))
  {
    hide Valid, Abs, Update, CpltClass;
    var u := TransformUnion(c, a, b, Names(s));
    RepresentativeAfter(c, s, a, u.a);
    RepresentativeAfter(c, s, b, u.b);
    UpdateMeans(c, Split(Names(s)));
    assert Abs(Update(c, Split(Names(s)))).Keys == Abs(c).Keys;
    UnionAbs(Update(c, Split(Names(s))), u.a, u.b);
  }

  /** The condition, read off the rewritten union. */
  lemma ClosesAfterRewriting(c: Content, a: Arg, b: Arg, s: seq<Elem>)
    requires SplitOk(c, s) && OpOk(Abs(c), Union(a, b))
    ensures var u := TransformUnion(c, a, b, Names(s));
      && u.Union? && (u.a.Names? ==> u.a.tokens != []) && (u.b.Names? ==> u.b.tokens != [])
      && (SquareCloses(c, a, b, s) <==> u.a.Star? || u.b.Star? || (u.a.tokens[0] in s <==> u.b.tokens[0] in s))
  {
    hide Valid, Abs, CpltClass;
    CpltOfSet(c, s);
    var t := CpltClass(c, Names(s));
    assert t.Names? ==> t.tokens[0] !in s by {
      assert t.Names? ==> t.tokens[0] !in ToSet(s);
    }
    SingleNames(c, a, b, s);
  }

  /** Two single names: redirected at most once, and the same name twice is left alone. */
  lemma SingleNames(c: Content, a: Arg, b: Arg, s: seq<Elem>)
    requires SplitOk(c, s) && OpOk(Abs(c), Union(a, b))
    ensures !Multi(a) && a.Names? ==> a.tokens == [a.tokens[0]]
    ensures !Multi(b) && b.Names? ==> b.tokens == [b.tokens[0]]
    ensures a.Names? && Redirected(a, Names(s)) ==> s[0] in a.tokens
  {
  }

  /** For every acceptable union and every acceptable split of one or more names: the two orders end in the
      same relation if and only if the condition above holds. */
  lemma UnionSplitSquareExactly(c: Content, a: Arg, b: Arg, s: seq<Elem>)
    requires SplitOk(c, s) && OpOk(Abs(c), Union(a, b))
    ensures Abs(UnionFirst(c, a, b, s)) == Abs(SplitFirst(c, a, b, s)) <==> SquareCloses(c, a, b, s)
  {
    hide Valid, Abs, Update, CpltClass, UnionFirst, SplitFirst, IsEqv, Apply, SquareCloses;
    var u, r, cut := TransformUnion(c, a, b, Names(s)), Abs(c), ToSet(s);
    AbsIsEqv(c);
    ClosesAfterRewriting(c, a, b, s);
    UnionFirstMeans(c, a, b, s);
    SplitFirstMeans(c, a, b, s);
    RepresentativeAfter(c, s, a, u.a);
    RepresentativeAfter(c, s, b, u.b);
    NopIsIdentity(r);
    NopIsIdentity(Apply(r, Cut(cut)));
    if a.Names? && b.Names? {
      if u.a.Names? && u.b.Names? {
        CutKeys(r, cut);
        JoinThenCut(r, cut, a.tokens[0], b.tokens[0], u.a.tokens[0], u.b.tokens[0], s[0]);
      } else {
        WholeClassCut(r, cut, a.tokens[0], b.tokens[0]);
      }
    }
  }

  const TORN: Content := [["a", "b"], ["c"]]

  lemma TornIsOk()
    ensures Valid(TORN) && Abs(TORN) == map["a" := {"a", "b"}, "b" := {"a", "b"}, "c" := {"c"}]
  {
    TornIsValid();
    TornElems();
    hide Valid;
    ClassOfMember(TORN, 0, "a");
    ClassOfMember(TORN, 0, "b");
    ClassOfMember(TORN, 1, "c");
    assert ToSet(["a", "b"]) == {"a", "b"} && ToSet(["c"]) == {"c"};
  }

  lemma TornIsValid()
    ensures Valid(TORN)
  {
  }

  lemma TornElems()
    ensures Elems(TORN) == {"a", "b", "c"}
  {
    assert TORN[0] == ["a", "b"] && TORN[1] == ["c"];
    assert TORN[0][0] == "a" && TORN[0][1] == "b" && TORN[1][0] == "c";
    forall e: Elem
      ensures e in Elems(TORN) <==> e in {"a", "b", "c"}
    {
      if e in Elems(TORN) {
        var i :| 0 <= i < |TORN| && e in TORN[i];
        assert i == 0 || i == 1;
      }
      assert TORN[0][0] in TORN[0] && TORN[0][1] in TORN[0] && TORN[1][0] in TORN[1];
    }
  }

  /** A value on which the square stays open: SPLIT a,b against UNION a c. */
  lemma SetSplitDiverges()
    ensures SplitOk(TORN, ["a", "b"]) && OpOk(Abs(TORN), Union(Names(["a"]), Names(["c"])))
    ensures Abs(UnionFirst(TORN, Names(["a"]), Names(["c"]), ["a", "b"])) != Abs(SplitFirst(TORN, Names(["a"]), Names(["c"]), ["a", "b"]))
  {
    hide Valid, Abs, UnionFirst, SplitFirst, CpltClass, TORN;
    TornIsOk();
    var a, b, s := Names(["a"]), Names(["c"]), ["a", "b"];
    assert s[0] != s[1] by {
      assert s[0][0] == 'a' && s[1][0] == 'b';
    }
    assert a.tokens[0] != b.tokens[0] by {
      assert a.tokens[0][0] == 'a' && b.tokens[0][0] == 'c';
    }
    assert a.tokens != s by {
      assert |a.tokens| == 1;
    }
    assert b.tokens[0] !in s by {
      assert b.tokens[0][0] == 'c' && s[0][0] == 'a' && s[1][0] == 'b';
    }
    UnionSplitSquareExactly(TORN, a, b, s);
  }

  // ---------------------------------------------------------------- split against split

  /** Names of different classes cannot be split off together: one of them would be written twice. */
  lemma SplitAcross(c: Content, s: seq<Elem>, x: Elem)
    requires Valid(c) && s != [] && s[0] in Elems(c) && x in s && x in Elems(c)
    requires ClassIndex(c, x) != ClassIndex(c, s[0]) && TextLen(c[ClassIndex(c, s[0])]) != TextLen(s)
    ensures !Valid(Update(c, Split(Names(s))))
  {
    hide ClassIndex, TextLen, Abs;
    var k, l := ClassIndex(c, s[0]), ClassIndex(c, x);
    var d := Update(c, Split(Names(s)));
    var l2 := if l < k then l else l + 1;
    assert d[k + 1] == s && d[l2] == c[l];
    var p :| 0 <= p < |s| && s[p] == x;
    var q :| 0 <= q < |c[l]| && c[l][q] == x;
    assert d[k + 1][p] == d[l2][q];
  }

  lemma SplitsCommute(c: Content, s1: seq<Elem>, s2: seq<Elem>)
    requires SplitOk(c, s1) && SplitOk(c, s2) && (ToSet(s1) !! ToSet(s2) || ToSet(s1) == ToSet(s2))
    ensures var d := Update(Update(c, Split(Names(s1))), Split(Names(s2)));
            Valid(d) && Abs(d) == Apply(Apply(Abs(c), Cut(ToSet(s1))), Cut(ToSet(s2)))
  {
    hide Valid, Abs, Update;
    var r := Abs(c);
    AbsIsEqv(c);
    UpdateMeans(c, Split(Names(s1)));
    forall t | t in s2
      ensures t in ToSet(s2) && t in r && r[t] == r[s2[0]]
    {
    }
    UpdateMeans(Update(c, Split(Names(s1))), Split(Names(s2)));
  }

  lemma IndexOfKnown(c: Content, e: Elem)
    ensures e in Elems(c) <==> ClassIndex(c, e) >= 0
    ensures Abs(c).Keys == Elems(c)
  {
  }

  lemma DifferentIndex(d: Content, z: Elem, w: Elem)
    requires Valid(d) && z in Elems(d) && w in Elems(d) && w !in Abs(d)[z]
    ensures ClassIndex(d, z) != ClassIndex(d, w)
  {
    ClassOfMember(d, ClassIndex(d, z), z);
  }

  lemma SplitKeepsElems(c: Content, s: seq<Elem>)
    requires SplitOk(c, s)
    ensures Valid(Update(c, Split(Names(s)))) && Elems(Update(c, Split(Names(s)))) == Elems(c)
  {
    hide Valid, Update, Abs, ArgOk;
    UpdateMeans(c, Split(Names(s)));
    CutKeys(Abs(c), ToSet(s));
    IndexOfKnown(c, "");
    IndexOfKnown(Update(c, Split(Names(s))), "");
  }

  /** Two sets that overlap without being equal: once `s2` is split off, the names `z` (of both sets) and `w`
      (of the first only) are in different classes. */
  lemma Separated(c: Content, s2: seq<Elem>, z: Elem, w: Elem)
    requires SplitOk(c, s2) && z in s2 && w !in s2 && z in Elems(c) && w in Elems(c)
    ensures var d := Update(c, Split(Names(s2)));
            Valid(d) && z in Elems(d) && w in Elems(d) && ClassIndex(d, z) != ClassIndex(d, w)
  {
    hide Valid, Update, Abs, ArgOk;
    var d := Update(c, Split(Names(s2)));
    SplitKeepsElems(c, s2);
    UpdateMeans(c, Split(Names(s2)));
    IndexOfKnown(c, z);
    assert z in ToSet(s2) && w !in ToSet(s2);
    DifferentIndex(d, z, w);
  }

  lemma StuckUnlessSameText(d: Content, s1: seq<Elem>, z: Elem, w: Elem)
    requires Valid(d) && s1 != [] && z in s1 && w in s1 && (forall t :: t in s1 ==> t in Elems(d))
    requires ClassIndex(d, z) != ClassIndex(d, w) && Valid(Update(d, Split(Names(s1))))
    ensures ClassIndex(d, s1[0]) >= 0 && TextLen(d[ClassIndex(d, s1[0])]) == TextLen(s1) && Update(d, Split(Names(s1))) == d
  {
    hide Valid;
    IndexOfKnown(d, s1[0]);
    if TextLen(d[ClassIndex(d, s1[0])]) != TextLen(s1) {
      SplitAcross(d, s1, if ClassIndex(d, z) != ClassIndex(d, s1[0]) then z else w);
    }
  }

  /** In the other order the second split is either stuck as well, or the second set lies inside the first. */
  lemma OtherOrder(c: Content, s1: seq<Elem>, s2: seq<Elem>, z: Elem)
    requires SplitOk(c, s1) && SplitOk(c, s2) && z in s1 && z in s2
    requires Valid(Update(Update(c, Split(Names(s1))), Split(Names(s2))))
    ensures var e := Update(c, Split(Names(s1)));
            Update(e, Split(Names(s2))) == e || ToSet(s2) <= ToSet(s1)
  {
    var e := Update(c, Split(Names(s1)));
    if exists w :: w in s2 && w !in s1 {
      var w :| w in s2 && w !in s1;
      KnownNames(c, s1, s2);
      Separated(c, s1, z, w);
      StuckUnlessSameText(e, s2, z, w);
    }
  }

  lemma KnownNames(c: Content, s1: seq<Elem>, s2: seq<Elem>)
    requires SplitOk(c, s1) && SplitOk(c, s2)
    ensures forall t :: t in s2 ==> t in Elems(c) && t in Elems(Update(c, Split(Names(s1))))
  {
    hide Valid, Update, Abs, Elems;
    AbsIsEqv(c);
    IndexOfKnown(c, "");
    SplitKeepsElems(c, s1);
  }

  lemma SplitMeans(c: Content, s: seq<Elem>)
    requires SplitOk(c, s)
    ensures Valid(Update(c, Split(Names(s)))) && IsEqv(Abs(c))
    ensures Abs(Update(c, Split(Names(s)))) == Apply(Abs(c), Cut(ToSet(s)))
    ensures forall t :: t in s ==> t in Abs(c) && Abs(c)[t] == Abs(c)[s[0]]
  {
    UpdateMeans(c, Split(Names(s)));
    AbsIsEqv(c);
  }

  /** A class that writes as long as `s` and lies inside it holds all of it. */
  lemma SameTextHoldsAll(d: Content, s: seq<Elem>, k: nat)
    requires Valid(d) && k < |d| && s != [] && Distinct(s) && ToSet(d[k]) <= ToSet(s) && TextLen(d[k]) == TextLen(s)
    ensures ToSet(d[k]) == ToSet(s)
  {
    assert Distinct(d[k]);
    SameTextIsSameSet(s, d[k]);
  }

  /** If the class left by splitting off `s2` writes as long as `s1`, then `s1` was not the whole class. */
  lemma StuckIsNotWhole(c: Content, s1: seq<Elem>, s2: seq<Elem>, z: Elem, w: Elem)
    requires SplitOk(c, s1) && SplitOk(c, s2) && z in s2 && z in s1 && w in s1 && w !in s2
    requires var d := Update(c, Split(Names(s2)));
             ClassIndex(d, s1[0]) >= 0 && TextLen(d[ClassIndex(d, s1[0])]) == TextLen(s1)
    ensures ToSet(s1) != Abs(c)[s1[0]]
  {
    hide Valid, Update, Elems;
    var d, r := Update(c, Split(Names(s2))), Abs(c);
    SplitMeans(c, s1);
    SplitMeans(c, s2);
    assert z in ToSet(s2) && w !in ToSet(s2) && z in ToSet(s1) && w in ToSet(s1);
    if ToSet(s1) == r[s1[0]] {
      var k := ClassIndex(d, s1[0]);
      ClassOfMember(d, k, s1[0]);
      assert Abs(d)[s1[0]] == if s1[0] in ToSet(s2) then ToSet(s2) else r[s1[0]] - ToSet(s2);
      SameTextHoldsAll(d, s1, k);
    }
  }

  lemma NestedCuts(r: Eqv, s1: set<Elem>, s2: set<Elem>, w: Elem)
    requires w in r && s1 <= r[w] && s2 <= s1 && s1 != r[w] && w in s1 && w !in s2
    ensures Apply(Apply(r, Cut(s1)), Cut(s2)) != Apply(r, Cut(s2))
  {
    assert Apply(Apply(r, Cut(s1)), Cut(s2))[w] == s1 - s2;
    assert Apply(r, Cut(s2))[w] == r[w] - s2;
    var x :| x in r[w] && x !in s1;
    assert x in r[w] - s2 && x !in s1 - s2;
  }

  lemma NestedDiverges(c: Content, s1: seq<Elem>, s2: seq<Elem>, z: Elem, w: Elem)
    requires SplitOk(c, s1) && SplitOk(c, s2) && z in s1 && z in s2 && w in s1 && w !in s2 && ToSet(s2) <= ToSet(s1)
    requires var d := Update(c, Split(Names(s2)));
             ClassIndex(d, s1[0]) >= 0 && TextLen(d[ClassIndex(d, s1[0])]) == TextLen(s1)
    ensures Abs(Update(Update(c, Split(Names(s1))), Split(Names(s2)))) != Abs(Update(c, Split(Names(s2))))
  {
    hide Valid, Update, Elems, Abs, Apply;
    SplitMeans(c, s1);
    SplitMeans(c, s2);
    NestedSplitOk(c, s1, s2);
    SplitMeans(Update(c, Split(Names(s1))), s2);
    StuckIsNotWhole(c, s1, s2, z, w);
    assert ToSet(s1) <= Abs(c)[w];
    NestedCuts(Abs(c), ToSet(s1), ToSet(s2), w);
  }

  lemma NestedSplitOk(c: Content, s1: seq<Elem>, s2: seq<Elem>)
    requires SplitOk(c, s1) && SplitOk(c, s2) && ToSet(s2) <= ToSet(s1)
    ensures SplitOk(Update(c, Split(Names(s1))), s2)
  {
    hide Valid, Update;
    SplitMeans(c, s1);
    forall t | t in s2
      ensures t in ToSet(s1)
    {
      assert t in ToSet(s2);
    }
  }

  lemma OverlapDiverges(c: Content, s1: seq<Elem>, s2: seq<Elem>, z: Elem, w: Elem)
    requires SplitOk(c, s1) && SplitOk(c, s2) && z in s1 && z in s2 && w in s1 && w !in s2
    requires Valid(Update(Update(c, Split(Names(s1))), Split(Names(s2)))) && Valid(Update(Update(c, Split(Names(s2))), Split(Names(s1))))
    ensures Abs(Update(Update(c, Split(Names(s1))), Split(Names(s2)))) != Abs(Update(Update(c, Split(Names(s2))), Split(Names(s1))))
  {
    hide Valid, Update, Abs, Elems;
    var d, e := Update(c, Split(Names(s2))), Update(c, Split(Names(s1)));
    KnownNames(c, s2, s1);
    KnownNames(c, s1, s2);
    Separated(c, s2, z, w);
    StuckUnlessSameText(d, s1, z, w);
    OtherOrder(c, s1, s2, z);
    if Update(e, Split(Names(s2))) == e {
      SplitMeans(c, s1);
      SplitMeans(c, s2);
      assert z in ToSet(s1) && w in ToSet(s1) && z in ToSet(s2) && w !in ToSet(s2);
      assert z in Abs(e)[w] && z !in Abs(d)[w];
    } else {
      NestedDiverges(c, s1, s2, z, w);
    }
  }

  /** Two concurrent splits, of any names: both orders give the same well-formed value if and only if the two
      sets are disjoint or equal. */
  lemma SplitSplitSquareExactly(c: Content, s1: seq<Elem>, s2: seq<Elem>)
    requires SplitOk(c, s1) && SplitOk(c, s2)
    ensures var left := Update(Update(c, Split(Names(s1))), Split(Names(s2)));
            var right := Update(Update(c, Split(Names(s2))), Split(Names(s1)));
            Valid(left) && Valid(right) && Abs(left) == Abs(right)
            <==> ToSet(s1) !! ToSet(s2) || ToSet(s1) == ToSet(s2)
  {
    hide Valid, Update, Abs;
    if ToSet(s1) !! ToSet(s2) || ToSet(s1) == ToSet(s2) {
      SplitsCommute(c, s1, s2);
      SplitsCommute(c, s2, s1);
      CutsCommute(Abs(c), ToSet(s1), ToSet(s2));
    } else if Valid(Update(Update(c, Split(Names(s1))), Split(Names(s2)))) && Valid(Update(Update(c, Split(Names(s2))), Split(Names(s1)))) {
      var z :| z in ToSet(s1) && z in ToSet(s2);
      if w :| w in ToSet(s1) && w !in ToSet(s2) {
        OverlapDiverges(c, s1, s2, z, w);
      } else {
        var w :| w in ToSet(s2) && w !in ToSet(s1);
        OverlapDiverges(c, s2, s1, z, w);
      }
    }
  }

  lemma CutsCommute(r: Eqv, s1: set<Elem>, s2: set<Elem>)
    requires s1 !! s2 || s1 == s2
    ensures Apply(Apply(r, Cut(s1)), Cut(s2)) == Apply(Apply(r, Cut(s2)), Cut(s1))
  {
    var a, b := Apply(Apply(r, Cut(s1)), Cut(s2)), Apply(Apply(r, Cut(s2)), Cut(s1));
    forall e | e in r
      ensures a[e] == b[e]
    {
    }
  }

  // ---------------------------------------------------------------- any two operations

  /** When two acceptable operations may be executed at once. */
  ghost predicate Compatible(c: Content, op1: Op, op2: Op)
    requires Valid(c) && OpOk(Abs(c), op1) && OpOk(Abs(c), op2)
  {
    match (op1, op2)
    case (Union(_, _), Union(_, _)) => true
    case (Union(a, b), Split(s)) => SquareCloses(c, a, b, s.tokens)
    case (Split(s), Union(a, b)) => SquareCloses(c, a, b, s.tokens)
    case (Split(s1), Split(s2)) => ToSet(s1.tokens) !! ToSet(s2.tokens) || ToSet(s1.tokens) == ToSet(s2.tokens)
  }

  ghost predicate SameValue(left: Content, right: Content) {
    Valid(left) && Valid(right) && Abs(left) == Abs(right)
  }

  /** The square, exactly: both orders of any two acceptable operations, the later one transformed, end in well-formed
      texts of the same relation if and only if the operations are compatible. */
  lemma SquareExactly(c: Content, op1: Op, op2: Op)
    requires Valid(c) && OpOk(Abs(c), op1) && OpOk(Abs(c), op2)
    ensures SameValue(Update(Update(c, op1), Transform(c, op2, op1)), Update(Update(c, op2), Transform(c, op1, op2)))
            <==> Compatible(c, op1, op2)
  {
    hide Valid, Abs, Update, OpOk, SquareCloses, CpltClass;
    if op1.Union? && op2.Union? {
      TransformationSquare(c, op1, op2);
    } else if op1.Union? {
      MixedSquare(c, op1, op2);
    } else if op2.Union? {
      MixedSquare(c, op2, op1);
    } else {
      SplitsAreNames(c, op1.s);
      SplitsAreNames(c, op2.s);
      SplitSplitSquareExactly(c, op1.s.tokens, op2.s.tokens);
    }
  }

  lemma SplitsAreNames(c: Content, s: Arg)
    requires Valid(c) && OpOk(Abs(c), Split(s))
    ensures s.Names? && s == Names(s.tokens) && SplitOk(c, s.tokens)
  {
  }

  lemma MixedSquare(c: Content, u: Op, p: Op)
    requires Valid(c) && OpOk(Abs(c), u) && OpOk(Abs(c), p) && u.Union? && p.Split?
    ensures SameValue(Update(Update(c, u), Transform(c, p, u)), Update(Update(c, p), Transform(c, u, p)))
            <==> Compatible(c, u, p)
  {
    hide Valid, Abs, Update, OpOk, SquareCloses, CpltClass;
    SplitsAreNames(c, p.s);
    UnionFirstMeans(c, u.a, u.b, p.s.tokens);
    SplitFirstMeans(c, u.a, u.b, p.s.tokens);
    UnionSplitSquareExactly(c, u.a, u.b, p.s.tokens);
  }
}
