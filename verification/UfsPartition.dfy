/** The union-find value as UfsRedis writes it ("a,b/c/d"): a list of classes, each a list of element names;
    and what the two operations mean on the equivalence relation it stands for. */
module UfsPartition {

  type Elem = string

  /** The text of a value, split at '/' and ','. */
  type Content = seq<seq<Elem>>

  /** An operation's argument: "*" (made by a transformation, meaning nothing to do) or names joined by commas. */
  datatype Arg = Star | Names(tokens: seq<Elem>)

  datatype Op = Union(a: Arg, b: Arg) | Split(s: Arg)

  // ---------------------------------------------------------------- the text

  function ToSet(class_: seq<Elem>): set<Elem> {
    set x | x in class_
  }

  /** No class is empty and no element is written twice. */
  ghost predicate Valid(c: Content) {
    && (forall i :: 0 <= i < |c| ==> c[i] != [])
    && (forall i, p, j, q {:trigger c[i][p], c[j][q]} ::
          0 <= i < |c| && 0 <= p < |c[i]| && 0 <= j < |c| && 0 <= q < |c[j]| && c[i][p] == c[j][q] ==> i == j && p == q)
  }

  function Elems(c: Content): set<Elem> {
    set i, x | 0 <= i < |c| && x in c[i] :: x
  }

  /** The first class in which `e` is found, or -1. */
  function ClassIndex(c: Content, e: Elem): (k: int)
    ensures -1 <= k < |c|
    ensures k >= 0 ==> e in c[k]
    ensures k < 0 ==> forall i :: 0 <= i < |c| ==> e !in c[i]
  {
    if c == [] then -1
    else if e in c[0] then 0
    else
      var k := ClassIndex(c[1..], e);
      assert forall i :: 1 <= i < |c| ==> c[i] == c[1..][i - 1];
      if k < 0 then -1 else k + 1
  }

  /** The length of a class's text, commas included. */
  function TextLen(class_: seq<Elem>): nat {
    if class_ == [] then 0
    else if |class_| == 1 then |class_[0]|
    else |class_[0]| + 1 + TextLen(class_[1..])
  }

  /** sdsDel: each name of `del` removes one occurrence. */
  function Del(class_: seq<Elem>, del: seq<Elem>): seq<Elem> {
    if class_ == [] then []
    else if class_[0] in del then Del(class_[1..], RemoveOne(del, class_[0]))
    else [class_[0]] + Del(class_[1..], del)
  }

  function RemoveOne(s: seq<Elem>, e: Elem): seq<Elem> {
    if s == [] then [] else if s[0] == e then s[1..] else [s[0]] + RemoveOne(s[1..], e)
  }

  function Merge(c: Content, i: nat, j: nat): Content
    requires i < |c| && j < |c| && i != j
  {
    var low, high := if i < j then i else j, if i < j then j else i;
    c[..low] + [c[low] + c[high]] + c[low + 1..high] + c[high + 1..]
  }

  /** updateVerticeUfsFromState. */
  function Update(c: Content, op: Op): Content {
    match op
    case Union(a, b) =>
      if a.Star? || b.Star? || a.tokens == [] || b.tokens == [] then c
      else
        var i, j := ClassIndex(c, a.tokens[0]), ClassIndex(c, b.tokens[0]);
        if i == j || i < 0 || j < 0 then c else Merge(c, i, j)
    case Split(s) =>
      if s.Star? || s.tokens == [] then c
      else
        var k := ClassIndex(c, s.tokens[0]);
        if k < 0 || TextLen(c[k]) == TextLen(s.tokens) then c
        else c[..k] + [Del(c[k], s.tokens), s.tokens] + c[k + 1..]
  }

  // ---------------------------------------------------------------- the relation

  /** The class of every element. */
  type Eqv = map<Elem, set<Elem>>

  ghost function Abs(c: Content): Eqv {
    map e | e in Elems(c) :: ToSet(c[if ClassIndex(c, e) < 0 then 0 else ClassIndex(c, e)])
  }

  ghost predicate IsEqv(r: Eqv) {
    && (forall x :: x in r ==> x in r[x])
    && (forall x, y :: x in r && y in r[x] ==> y in r && r[y] == r[x])
  }

  /** What an operation does at a given relation: nothing, join two different classes, or cut a set out of
      its class. */
  datatype Effect = Nop | Join(x: set<Elem>, y: set<Elem>) | Cut(s: set<Elem>)

  function Apply(r: Eqv, f: Effect): Eqv {
    match f
    case Nop => r
    case Join(x, y) => map e | e in r :: if e in x || e in y then x + y else r[e]
    case Cut(s) => map e | e in r :: if e in s then s else r[e] - s
  }

  function Meaning(r: Eqv, op: Op): Effect {
    match op
    case Union(a, b) =>
      if a.Star? || b.Star? || a.tokens == [] || b.tokens == [] || a.tokens[0] !in r || b.tokens[0] !in r then Nop
      else if r[a.tokens[0]] == r[b.tokens[0]] then Nop
      else Join(r[a.tokens[0]], r[b.tokens[0]])
    case Split(s) => if s.Star? then Nop else Cut(ToSet(s.tokens))
  }

  /** The names are different elements of one class: what checkArgv demands before an operation is accepted. */
  ghost predicate ArgOk(r: Eqv, a: Arg) {
    a.Names? ==> && a.tokens != [] && (forall p, q :: 0 <= p < q < |a.tokens| ==> a.tokens[p] != a.tokens[q])
                 && a.tokens[0] in r && forall t :: t in a.tokens ==> t in r[a.tokens[0]]
  }

  ghost predicate OpOk(r: Eqv, op: Op) {
    match op
    case Union(a, b) => ArgOk(r, a) && ArgOk(r, b)
    case Split(s) => s.Names? && ArgOk(r, s)
  }

  // ---------------------------------------------------------------- text and relation agree

  lemma ClassOfMember(c: Content, k: nat, e: Elem)
    requires Valid(c) && k < |c| && e in c[k]
    ensures ClassIndex(c, e) == k && e in Elems(c) && Abs(c)[e] == ToSet(c[k])
  {
  }

  lemma AbsIsEqv(c: Content)
    requires Valid(c)
    ensures IsEqv(Abs(c))
  {
    var r := Abs(c);
    forall x | x in r
      ensures x in r[x] && forall y :: y in r[x] ==> y in r && r[y] == r[x]
    {
      var k := ClassIndex(c, x);
      ClassOfMember(c, k, x);
      forall y | y in r[x]
        ensures y in r && r[y] == r[x]
      {
        ClassOfMember(c, k, y);
      }
    }
  }

  /** To know the relation of a text it is enough to know, for each element, a class that holds it. */
  lemma AbsByMembers(c: Content, r: Eqv)
    requires Valid(c) && r.Keys == Elems(c)
    requires forall i, e :: 0 <= i < |c| && e in c[i] && e in r ==> r[e] == ToSet(c[i])
    ensures Abs(c) == r
  {
    forall e | e in r
      ensures Abs(c)[e] == r[e]
    {
      var k := ClassIndex(c, e);
      ClassOfMember(c, k, e);
    }
  }

  // Merging.

  lemma MergeAt(c: Content, i: nat, j: nat, k: nat) returns (from: nat)
    requires i < j < |c| && k < |Merge(c, i, j)|
    ensures k == i ==> Merge(c, i, j)[k] == c[i] + c[j]
    ensures k != i ==> from < |c| && from != i && from != j && Merge(c, i, j)[k] == c[from]
    ensures k != i ==> from == if k < j then k else k + 1
  {
    from := if k < j then k else k + 1;
  }

  lemma MergeValid(c: Content, i: nat, j: nat)
    requires Valid(c) && i < j < |c|
    ensures Valid(Merge(c, i, j))
  {
    var m := Merge(c, i, j);
    forall k | 0 <= k < |m|
      ensures m[k] != []
    {
      var _ := MergeAt(c, i, j, k);
    }
    forall k, p, l, q | 0 <= k < |m| && 0 <= p < |m[k]| && 0 <= l < |m| && 0 <= q < |m[l]| && m[k][p] == m[l][q]
      ensures k == l && p == q
    {
      var kf := MergeAt(c, i, j, k);
      var lf := MergeAt(c, i, j, l);
      var n := |c[i]|;
      assert m[k][p] == if k != i then c[kf][p] else if p < n then c[i][p] else c[j][p - n];
      assert m[l][q] == if l != i then c[lf][q] else if q < n then c[i][q] else c[j][q - n];
    }
  }

  lemma MergeElems(c: Content, i: nat, j: nat)
    requires i < j < |c|
    ensures Elems(Merge(c, i, j)) == Elems(c)
  {
    var m := Merge(c, i, j);
    forall e | e in Elems(c)
      ensures e in Elems(m)
    {
      var k :| 0 <= k < |c| && e in c[k];
      var to := if k == j then i else if k < j then k else k - 1;
      assert e in m[to];
    }
    forall e | e in Elems(m)
      ensures e in Elems(c)
    {
      var k :| 0 <= k < |m| && e in m[k];
      var kf := MergeAt(c, i, j, k);
    }
  }

  lemma MergeMember(c: Content, i: nat, j: nat, k: nat, e: Elem)
    requires Valid(c) && i < j < |c| && k < |Merge(c, i, j)| && e in Merge(c, i, j)[k]
    ensures e in Elems(c)
    ensures Apply(Abs(c), Join(ToSet(c[i]), ToSet(c[j])))[e] == ToSet(Merge(c, i, j)[k])
  {
    var kf := MergeAt(c, i, j, k);
    if k == i {
      assert ToSet(c[i] + c[j]) == ToSet(c[i]) + ToSet(c[j]);
      ClassOfMember(c, if e in c[i] then i else j, e);
    } else {
      ClassOfMember(c, kf, e);
      assert e !in c[i] && e !in c[j];
    }
  }

  lemma MergeAbs(c: Content, i: nat, j: nat)
    requires Valid(c) && i < j < |c|
    ensures Valid(Merge(c, i, j))
    ensures Abs(Merge(c, i, j)) == Apply(Abs(c), Join(ToSet(c[i]), ToSet(c[j])))
  {
    var m := Merge(c, i, j);
    var r := Apply(Abs(c), Join(ToSet(c[i]), ToSet(c[j])));
    MergeValid(c, i, j);
    MergeElems(c, i, j);
    forall k, e | 0 <= k < |m| && e in m[k] && e in r
      ensures r[e] == ToSet(m[k])
    {
      MergeMember(c, i, j, k, e);
    }
    AbsByMembers(m, r);
  }

  // Cutting.

  ghost predicate Distinct(s: seq<Elem>) {
    forall p, q :: 0 <= p < q < |s| ==> s[p] != s[q]
  }

  lemma NonemptySet(s: seq<Elem>)
    ensures s == [] <==> ToSet(s) == {}
  {
    if s != [] {
      assert s[0] in ToSet(s);
    }
  }

  lemma {:induction false} RemoveOneMember(s: seq<Elem>, e: Elem, x: Elem)
    requires Distinct(s)
    ensures x in RemoveOne(s, e) <==> x in s && x != e
  {
    if s != [] {
      assert s == [s[0]] + s[1..];
      RemoveOneMember(s[1..], e, x);
    }
  }

  lemma {:induction false} RemoveOneDistinct(s: seq<Elem>, e: Elem)
    requires Distinct(s)
    ensures Distinct(RemoveOne(s, e))
  {
    if s != [] && s[0] != e {
      RemoveOneDistinct(s[1..], e);
      RemoveOneMember(s[1..], e, s[0]);
      assert RemoveOne(s, e)[1..] == RemoveOne(s[1..], e);
    }
  }

  lemma RemoveOneSet(s: seq<Elem>, e: Elem)
    requires Distinct(s)
    ensures Distinct(RemoveOne(s, e)) && ToSet(RemoveOne(s, e)) == ToSet(s) - {e}
  {
    RemoveOneDistinct(s, e);
    forall x
      ensures x in RemoveOne(s, e) <==> x in s && x != e
    {
      RemoveOneMember(s, e, x);
    }
  }

  lemma {:induction false} DelMember(class_: seq<Elem>, del: seq<Elem>, x: Elem)
    requires Distinct(class_) && Distinct(del)
    ensures x in Del(class_, del) <==> x in class_ && x !in del
  {
    if class_ != [] {
      assert class_ == [class_[0]] + class_[1..];
      if class_[0] in del {
        RemoveOneDistinct(del, class_[0]);
        RemoveOneMember(del, class_[0], x);
        DelMember(class_[1..], RemoveOne(del, class_[0]), x);
      } else {
        DelMember(class_[1..], del, x);
      }
    }
  }

  lemma {:induction false} DelDistinct(class_: seq<Elem>, del: seq<Elem>)
    requires Distinct(class_) && Distinct(del)
    ensures Distinct(Del(class_, del))
  {
    if class_ != [] {
      if class_[0] in del {
        RemoveOneDistinct(del, class_[0]);
        DelDistinct(class_[1..], RemoveOne(del, class_[0]));
      } else {
        DelDistinct(class_[1..], del);
        DelMember(class_[1..], del, class_[0]);
        assert Del(class_, del)[1..] == Del(class_[1..], del);
      }
    }
  }

  lemma DelSet(class_: seq<Elem>, del: seq<Elem>)
    requires Distinct(class_) && Distinct(del)
    ensures Distinct(Del(class_, del)) && ToSet(Del(class_, del)) == ToSet(class_) - ToSet(del)
  {
    DelDistinct(class_, del);
    forall x
      ensures x in Del(class_, del) <==> x in class_ && x !in del
    {
      DelMember(class_, del, x);
    }
  }

  /** Every name costs its length and a separator. */
  function Weight(s: seq<Elem>): nat {
    if s == [] then 0 else |s[0]| + 1 + Weight(s[1..])
  }

  lemma {:induction false} WeightIsTextLen(s: seq<Elem>)
    requires s != []
    ensures Weight(s) == TextLen(s) + 1
  {
    if |s| > 1 {
      WeightIsTextLen(s[1..]);
    }
  }

  lemma {:induction false} RemoveOneWeight(s: seq<Elem>, e: Elem)
    requires e in s
    ensures Weight(RemoveOne(s, e)) + |e| + 1 == Weight(s)
  {
    if s[0] != e {
      assert s == [s[0]] + s[1..];
      RemoveOneWeight(s[1..], e);
      assert RemoveOne(s, e)[1..] == RemoveOne(s[1..], e);
    }
  }

  lemma {:induction false} DelWeight(class_: seq<Elem>, del: seq<Elem>)
    requires Distinct(class_) && Distinct(del) && ToSet(del) <= ToSet(class_)
    ensures Weight(class_) == Weight(del) + Weight(Del(class_, del))
  {
    NonemptySet(del);
    if class_ != [] {
      var rest := class_[1..];
      assert ToSet(class_) == {class_[0]} + ToSet(rest);
      if class_[0] in del {
        RemoveOneSet(del, class_[0]);
        RemoveOneWeight(del, class_[0]);
        DelWeight(rest, RemoveOne(del, class_[0]));
      } else {
        DelWeight(rest, del);
        assert Del(class_, del)[1..] == Del(rest, del);
      }
    }
  }

  /** Comparing text lengths is comparing sets, because the names are all in the class. */
  lemma SameTextIsSameSet(class_: seq<Elem>, del: seq<Elem>)
    requires Distinct(class_) && Distinct(del) && del != [] && class_ != [] && ToSet(del) <= ToSet(class_)
    ensures TextLen(class_) == TextLen(del) <==> ToSet(class_) == ToSet(del)
    ensures TextLen(class_) == TextLen(del) <==> Del(class_, del) == []
  {
    WeightIsTextLen(class_);
    WeightIsTextLen(del);
    DelWeight(class_, del);
    DelSet(class_, del);
    NonemptySet(Del(class_, del));
    SubsetDifference(ToSet(class_), ToSet(del));
  }

  lemma SubsetDifference(a: set<Elem>, b: set<Elem>)
    requires b <= a
    ensures a - b == {} <==> a == b
  {
    assert a == b + (a - b);
  }

  function Carve(c: Content, k: nat, s: seq<Elem>): Content
    requires k < |c|
  {
    c[..k] + [Del(c[k], s), s] + c[k + 1..]
  }

  ghost predicate Carvable(c: Content, k: nat, s: seq<Elem>) {
    && Valid(c) && k < |c| && s != [] && Distinct(s) && ToSet(s) <= ToSet(c[k]) && Del(c[k], s) != []
  }

  lemma CarveAt(c: Content, k: nat, s: seq<Elem>, i: nat) returns (from: nat)
    requires Carvable(c, k, s) && i < |Carve(c, k, s)|
    ensures from < |c| && ToSet(Carve(c, k, s)[i]) <= ToSet(c[from])
    ensures from == if i <= k then i else i - 1
    ensures i == k ==> Carve(c, k, s)[i] == Del(c[k], s) && ToSet(Del(c[k], s)) == ToSet(c[k]) - ToSet(s)
    ensures i == k + 1 ==> Carve(c, k, s)[i] == s
    ensures i != k && i != k + 1 ==> Carve(c, k, s)[i] == c[from]
    ensures Distinct(Carve(c, k, s)[i]) && Carve(c, k, s)[i] != []
  {
    from := if i <= k then i else i - 1;
    assert Distinct(c[k]);
    DelSet(c[k], s);
  }

  lemma CarveValid(c: Content, k: nat, s: seq<Elem>)
    requires Carvable(c, k, s)
    ensures Valid(Carve(c, k, s))
  {
    var m := Carve(c, k, s);
    forall i | 0 <= i < |m|
      ensures m[i] != []
    {
      var _ := CarveAt(c, k, s, i);
    }
    forall i, p, j, q | 0 <= i < |m| && 0 <= p < |m[i]| && 0 <= j < |m| && 0 <= q < |m[j]| && m[i][p] == m[j][q]
      ensures i == j && p == q
    {
      var fi := CarveAt(c, k, s, i);
      var fj := CarveAt(c, k, s, j);
      var e := m[i][p];
      assert e in ToSet(m[i]) && e in ToSet(m[j]);
      SameClass(c, fi, fj, e);
    }
  }

  lemma SameClass(c: Content, i: nat, j: nat, e: Elem)
    requires Valid(c) && i < |c| && j < |c| && e in c[i] && e in c[j]
    ensures i == j
  {
  }

  lemma CarveElems(c: Content, k: nat, s: seq<Elem>)
    requires Carvable(c, k, s)
    ensures Elems(Carve(c, k, s)) == Elems(c)
  {
    var m := Carve(c, k, s);
    forall e | e in Elems(c)
      ensures e in Elems(m)
    {
      var i :| 0 <= i < |c| && e in c[i];
      var to := if i < k then i else if i > k then i + 1 else if e in s then k + 1 else k;
      var _ := CarveAt(c, k, s, to);
      assert e in ToSet(m[to]);
    }
    forall e | e in Elems(m)
      ensures e in Elems(c)
    {
      var i :| 0 <= i < |m| && e in m[i];
      var f := CarveAt(c, k, s, i);
      assert e in ToSet(m[i]);
    }
  }

  lemma CarveMember(c: Content, k: nat, s: seq<Elem>, i: nat, e: Elem)
    requires Carvable(c, k, s) && i < |Carve(c, k, s)| && e in Carve(c, k, s)[i]
    ensures e in Elems(c) && Apply(Abs(c), Cut(ToSet(s)))[e] == ToSet(Carve(c, k, s)[i])
  {
    var f := CarveAt(c, k, s, i);
    assert e in ToSet(Carve(c, k, s)[i]);
    ClassOfMember(c, f, e);
    if i != k && i != k + 1 {
      forall x | x in s
        ensures x !in c[f]
      {
        assert x in ToSet(s);
        if x in c[f] {
          SameClass(c, f, k, x);
        }
      }
    }
  }

  lemma CarveAbs(c: Content, k: nat, s: seq<Elem>)
    requires Carvable(c, k, s)
    ensures Valid(Carve(c, k, s)) && Abs(Carve(c, k, s)) == Apply(Abs(c), Cut(ToSet(s)))
  {
    var m := Carve(c, k, s);
    var r := Apply(Abs(c), Cut(ToSet(s)));
    CarveValid(c, k, s);
    CarveElems(c, k, s);
    forall i, e | 0 <= i < |m| && e in m[i] && e in r
      ensures r[e] == ToSet(m[i])
    {
      CarveMember(c, k, s, i, e);
    }
    AbsByMembers(m, r);
  }

  lemma CutWholeClass(r: Eqv, s: set<Elem>, x: Elem)
    requires IsEqv(r) && x in r && s == r[x]
    ensures Apply(r, Cut(s)) == r
  {
    forall e | e in r
      ensures (if e in s then s else r[e] - s) == r[e]
    {
      if e !in s {
        forall y | y in r[e]
          ensures y !in s
        {
          assert e in r[e] && r[y] == r[e];
        }
      }
    }
  }

  /** A union only looks at the first name of each argument. */
  ghost predicate Known(r: Eqv, a: Arg) {
    a.Names? ==> a.tokens != [] && a.tokens[0] in r
  }

  lemma UnionAbs(c: Content, a: Arg, b: Arg)
    requires Valid(c) && Known(Abs(c), a) && Known(Abs(c), b)
    ensures Valid(Update(c, Union(a, b)))
    ensures Abs(Update(c, Union(a, b))) == Apply(Abs(c), Meaning(Abs(c), Union(a, b)))
  {
    if a.Names? && b.Names? {
      var i, j := ClassIndex(c, a.tokens[0]), ClassIndex(c, b.tokens[0]);
      ClassOfMember(c, i, a.tokens[0]);
      ClassOfMember(c, j, b.tokens[0]);
      if i != j {
        DifferentClasses(c, i, j);
        MergeEither(c, i, j);
      }
    }
  }

  lemma MergeEither(c: Content, i: nat, j: nat)
    requires Valid(c) && i < |c| && j < |c| && i != j
    ensures Valid(Merge(c, i, j)) && Abs(Merge(c, i, j)) == Apply(Abs(c), Join(ToSet(c[i]), ToSet(c[j])))
  {
    if i < j {
      MergeAbs(c, i, j);
    } else {
      MergeAbs(c, j, i);
      MergeIsSymmetric(c, i, j);
      JoinIsSymmetric(Abs(c), ToSet(c[i]), ToSet(c[j]));
    }
  }

  lemma MergeIsSymmetric(c: Content, i: nat, j: nat)
    requires i < |c| && j < |c| && i != j
    ensures Merge(c, i, j) == Merge(c, j, i)
  {
  }

  lemma JoinIsSymmetric(r: Eqv, x: set<Elem>, y: set<Elem>)
    ensures Apply(r, Join(x, y)) == Apply(r, Join(y, x))
  {
    assert x + y == y + x;
  }

  lemma DifferentClasses(c: Content, i: nat, j: nat)
    requires Valid(c) && i < |c| && j < |c| && i != j
    ensures ToSet(c[i]) != ToSet(c[j])
  {
    assert c[i][0] in ToSet(c[i]);
    if c[i][0] in c[j] {
      SameClass(c, i, j, c[i][0]);
    }
  }

  lemma SplitAbs(c: Content, s: Arg)
    requires Valid(c) && OpOk(Abs(c), Split(s))
    ensures Valid(Update(c, Split(s)))
    ensures Abs(Update(c, Split(s))) == Apply(Abs(c), Meaning(Abs(c), Split(s)))
  {
    var k := ClassIndex(c, s.tokens[0]);
    ClassOfMember(c, k, s.tokens[0]);
    assert ToSet(s.tokens) <= ToSet(c[k]);
    SameTextIsSameSet(c[k], s.tokens);
    if TextLen(c[k]) == TextLen(s.tokens) {
      AbsIsEqv(c);
      CutWholeClass(Abs(c), ToSet(s.tokens), s.tokens[0]);
    } else {
      CarveAbs(c, k, s.tokens);
    }
  }

  /** The text update of an accepted operation is the operation's effect on the relation. */
  lemma UpdateMeans(c: Content, op: Op)
    requires Valid(c) && OpOk(Abs(c), op)
    ensures Valid(Update(c, op)) && Abs(Update(c, op)) == Apply(Abs(c), Meaning(Abs(c), op))
  {
    match op
    case Union(a, b) => UnionAbs(c, a, b);
    case Split(s) => SplitAbs(c, s);
  }
}
