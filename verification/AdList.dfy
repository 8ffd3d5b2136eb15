/** The doubly linked list: pointers on the heap, proved against the sequence of values they stand for. */
module AdList {
  import opened Base

  class Node<T> {
    var prev: Node?<T>
    var next: Node?<T>
    const value: T

    constructor (value: T)
      ensures this.value == value && prev == null && next == null
    {
      this.value := value;
      prev, next := null, null;
    }
  }

  function At<T>(nodes: seq<Node<T>>, i: int): Node?<T> {
    if 0 <= i < |nodes| then nodes[i] else null
  }

  ghost predicate Differ<T>(nodes: seq<Node<T>>, i: int, j: int)
    requires 0 <= i < |nodes| && 0 <= j < |nodes|
  {
    i != j ==> nodes[i] != nodes[j]
  }

  ghost predicate Distinct<T>(nodes: seq<Node<T>>) {
    forall i, j {:trigger Differ(nodes, i, j)} :: 0 <= i < |nodes| && 0 <= j < |nodes| ==> Differ(nodes, i, j)
  }

  /** The node at i points to its neighbours. */
  ghost predicate LinkAt<T>(nodes: seq<Node<T>>, i: int)
    requires 0 <= i < |nodes|
    reads nodes
  {
    nodes[i].prev == At(nodes, i - 1) && nodes[i].next == At(nodes, i + 1)
  }

  ghost predicate Linked<T>(nodes: seq<Node<T>>)
    reads nodes
  {
    forall i {:trigger LinkAt(nodes, i)} :: 0 <= i < |nodes| ==> LinkAt(nodes, i)
  }

  function Values<T>(nodes: seq<Node<T>>): seq<T> {
    seq(|nodes|, i requires 0 <= i < |nodes| => nodes[i].value)
  }

  /** Distinctness of a list rebuilt from distinct parts. */
  lemma DistinctParts<T>(a: seq<Node<T>>, b: seq<Node<T>>)
    requires Distinct(a) && Distinct(b) && forall n :: n in a ==> n !in b
    ensures Distinct(a + b)
  {
    forall i, j | 0 <= i < |a + b| && 0 <= j < |a + b|
      ensures Differ(a + b, i, j)
    {
      if i < |a| && j < |a| {
        assert Differ(a, i, j);
      } else if i >= |a| && j >= |a| {
        assert Differ(b, i - |a|, j - |a|);
      } else if i < |a| {
        assert a[i] in a && b[j - |a|] in b;
      } else {
        assert a[j] in a && b[i - |a|] in b;
      }
    }
  }

  lemma DistinctSlice<T>(nodes: seq<Node<T>>, i: nat, j: nat)
    requires Distinct(nodes) && i <= j <= |nodes|
    ensures Distinct(nodes[i..j])
    ensures forall n :: n in nodes[i..j] ==> n !in nodes[..i] && n !in nodes[j..]
  {
    forall k, l | 0 <= k < |nodes[i..j]| && 0 <= l < |nodes[i..j]|
      ensures Differ(nodes[i..j], k, l)
    {
      assert Differ(nodes, i + k, i + l);
    }
    forall n | n in nodes[i..j]
      ensures n !in nodes[..i] && n !in nodes[j..]
    {
      var k :| 0 <= k < |nodes[i..j]| && nodes[i..j][k] == n;
      forall l | 0 <= l < |nodes| && !(i <= l < j)
        ensures nodes[l] != n
      {
        assert Differ(nodes, i + k, l);
      }
    }
  }

  lemma DistinctWithout<T>(nodes: seq<Node<T>>, i: nat)
    requires Distinct(nodes) && i < |nodes|
    ensures Distinct(nodes[..i] + nodes[i + 1..])
  {
    DistinctSlice(nodes, 0, i);
    DistinctSlice(nodes, i + 1, |nodes|);
    assert nodes[0..i] == nodes[..i] && nodes[i + 1..|nodes|] == nodes[i + 1..];
    assert forall n :: n in nodes[..i] ==> n !in nodes[i..];
    assert forall n :: n in nodes[i + 1..] ==> n in nodes[i..];
    DistinctParts(nodes[..i], nodes[i + 1..]);
  }

  lemma DistinctWith<T>(nodes: seq<Node<T>>, i: nat, node: Node<T>)
    requires Distinct(nodes) && i <= |nodes| && node !in nodes
    ensures Distinct(nodes[..i] + [node] + nodes[i..])
  {
    DistinctSlice(nodes, 0, i);
    DistinctSlice(nodes, i, |nodes|);
    assert nodes[0..i] == nodes[..i] && nodes[i..|nodes|] == nodes[i..];
    DistinctParts(nodes[..i], [node]);
    DistinctParts(nodes[..i] + [node], nodes[i..]);
  }

  class List<T> {
    var head: Node?<T>
    var tail: Node?<T>
    var len: nat
    ghost var nodes: seq<Node<T>>

    ghost predicate Valid()
      reads this, nodes
    {
      && len == |nodes| && head == At(nodes, 0) && tail == At(nodes, |nodes| - 1)
      && Distinct(nodes) && Linked(nodes)
    }

    constructor ()
      ensures Valid() && nodes == []
    {
      head, tail, len, nodes := null, null, 0, [];
    }

    /** listAddNodeHead. */
    method AddNodeHead(value: T)
      requires Valid()
      modifies this, nodes
      ensures Valid() && |nodes| == |old(nodes)| + 1 && nodes == [nodes[0]] + old(nodes)
      ensures fresh(nodes[0]) && nodes[0].value == value
    {
      var node := new Node(value);
      if len == 0 {
        head, tail := node, node;
      } else {
        node.next := head;
        head.prev := node;
        head := node;
      }
      nodes := [node] + nodes;
      len := len + 1;
      DistinctParts([node], old(nodes));
      forall i | 0 <= i < |nodes|
        ensures LinkAt(nodes, i)
      {
        if i > 0 {
          assert old(LinkAt(nodes, i - 1));
          assert Differ(old(nodes), i - 1, 0);
        }
      }
    }

    /** listAddNodeTail. */
    method AddNodeTail(value: T)
      requires Valid()
      modifies this, nodes
      ensures Valid() && |nodes| == |old(nodes)| + 1 && nodes == old(nodes) + [nodes[|old(nodes)|]]
      ensures fresh(nodes[|old(nodes)|]) && nodes[|old(nodes)|].value == value
    {
      var node := new Node(value);
      if len == 0 {
        head, tail := node, node;
      } else {
        node.prev := tail;
        tail.next := node;
        tail := node;
      }
      nodes := nodes + [node];
      len := len + 1;
      DistinctParts(old(nodes), [node]);
      forall i | 0 <= i < |nodes|
        ensures LinkAt(nodes, i)
      {
        if i < |nodes| - 1 {
          assert old(LinkAt(nodes, i));
          assert Differ(old(nodes), i, |nodes| - 2);
        }
      }
    }

    /** listDelNode. */
    method DelNode(ghost i: nat, node: Node<T>)
      requires Valid() && i < |nodes| && nodes[i] == node
      modifies this, nodes
      ensures Valid() && nodes == old(nodes)[..i] + old(nodes)[i + 1..]
    {
      assert LinkAt(nodes, i);
      if node.prev != null {
        node.prev.next := node.next;
      } else {
        head := node.next;
      }
      if node.next != null {
        node.next.prev := node.prev;
      } else {
        tail := node.prev;
      }
      nodes := nodes[..i] + nodes[i + 1..];
      len := len - 1;
      DistinctWithout(old(nodes), i);
      forall k | 0 <= k < |nodes|
        ensures LinkAt(nodes, k)
      {
        ghost var k0 := if k < i then k else k + 1;
        assert old(LinkAt(nodes, k0));
        assert Differ(old(nodes), k0, i);
        if i > 0 {
          assert Differ(old(nodes), k0, i - 1);
        }
        if i + 1 < |old(nodes)| {
          assert Differ(old(nodes), k0, i + 1);
        }
      }
    }

    /** listInsertNode: before or after the node at position i. */
    method InsertNode(ghost i: nat, oldNode: Node<T>, value: T, after: bool)
      requires Valid() && i < |nodes| && nodes[i] == oldNode
      modifies this, nodes
      ensures Valid()
      ensures var k := if after then i + 1 else i;
              && |nodes| == |old(nodes)| + 1 && nodes == old(nodes)[..k] + [nodes[k]] + old(nodes)[k..]
              && fresh(nodes[k]) && nodes[k].value == value
    {
      hide Linked, Distinct;
      Ends(nodes, i);
      var node := new Node(value);
      if after {
        var next := Next(i, oldNode);
        node.prev, node.next := oldNode, next;
        if tail == oldNode {
          tail := node;
        }
      } else {
        var prev := Prev(i, oldNode);
        node.next, node.prev := oldNode, prev;
        if head == oldNode {
          head := node;
        }
      }
      ghost var k := if after then i + 1 else i;
      Splice(k, node);
      len := len + 1;
    }

    /** The end of listInsertNode: the neighbours are pointed to the new node. */
    method Splice(ghost k: nat, node: Node<T>)
      requires k <= |nodes| && node !in nodes && Distinct(nodes) && Linked(nodes)
      requires node.prev == At(nodes, k - 1) && node.next == At(nodes, k)
      modifies this`nodes, nodes
      ensures nodes == old(nodes)[..k] + [node] + old(nodes)[k..] && Distinct(nodes) && Linked(nodes)
    {
      if node.prev != null {
        node.prev.next := node;
      }
      if node.next != null {
        node.next.prev := node;
      }
      nodes := nodes[..k] + [node] + nodes[k..];
      DistinctWith(old(nodes), k, node);
      forall j | 0 <= j < |nodes|
        ensures LinkAt(nodes, j)
      {
        if j != k {
          ghost var j0 := if j < k then j else j - 1;
          assert old(LinkAt(nodes, j0));
          if k > 0 {
            assert Differ(old(nodes), j0, k - 1);
          }
          if k < |old(nodes)| {
            assert Differ(old(nodes), j0, k);
          }
        }
      }
    }

    /** listRotate: the last node becomes the first. */
    method Rotate()
      requires Valid()
      modifies this, nodes
      ensures Valid()
      ensures nodes == if |old(nodes)| <= 1 then old(nodes)
                       else [old(nodes)[|old(nodes)| - 1]] + old(nodes)[..|old(nodes)| - 1]
    {
      var last := tail;
      if len <= 1 {
        return;
      }
      ghost var n := |nodes|;
      assert LinkAt(nodes, n - 1) && LinkAt(nodes, n - 2);
      assert Differ(nodes, n - 1, n - 2) && Differ(nodes, n - 1, 0);
      tail := last.prev;
      tail.next := null;
      head.prev := last;
      last.prev := null;
      last.next := head;
      head := last;
      nodes := [nodes[n - 1]] + nodes[..n - 1];
      DistinctRotated(old(nodes));
      forall j | 0 <= j < |nodes|
        ensures LinkAt(nodes, j)
      {
        if j > 0 {
          assert old(LinkAt(nodes, j - 1));
          assert Differ(old(nodes), j - 1, n - 1) && Differ(old(nodes), j - 1, n - 2) && Differ(old(nodes), j - 1, 0);
        }
      }
    }

    /** listJoin: the other list's nodes go to the end of this one, and the other is left empty. */
    method Join(o: List<T>)
      requires Valid() && o.Valid() && o != this && forall n :: n in nodes ==> n !in o.nodes
      modifies this, o, nodes, o.nodes
      ensures Valid() && o.Valid() && nodes == old(nodes) + old(o.nodes) && o.nodes == []
    {
      hide Distinct;
      NothingIsLinked<T>();
      ghost var a, b := nodes, o.nodes;
      ConnectLists(tail, o.head, a, b);
      if tail == null {
        head := o.head;
      }
      if o.tail != null {
        tail := o.tail;
      }
      len := len + o.len;
      nodes := nodes + o.nodes;
      o.head, o.tail, o.len, o.nodes := null, null, 0, [];
      DistinctParts(a, b);
    }

    /** The pointers between two lists: their nodes become one chain. */
    static method ConnectLists(last: Node?<T>, first: Node?<T>, ghost a: seq<Node<T>>, ghost b: seq<Node<T>>)
      requires Distinct(a) && Linked(a) && Distinct(b) && Linked(b) && forall n :: n in a ==> n !in b
      requires last == At(a, |a| - 1) && first == At(b, 0)
      modifies last, first
      ensures Linked(a + b)
    {
      hide Distinct;
      assert last != null ==> last in a;
      assert first != null ==> first in b;
      Connect(last, first);
      forall j | 0 <= j < |a + b|
        ensures LinkAt(a + b, j)
      {
        if j < |a| {
          assert old(LinkAt(a, j));
          assert a[j] in a;
          Ends(a, j);
        } else {
          assert old(LinkAt(b, j - |a|));
          assert b[j - |a|] in b;
          Ends(b, j - |a|);
        }
      }
    }

    /** The two pointers between the last node of one list and the first of another. */
    static method Connect(last: Node?<T>, first: Node?<T>)
      requires last != null ==> last != first
      modifies last, first
      ensures first != null ==> first.prev == last && first.next == old(first.next)
      ensures last != null ==> last.next == first && last.prev == old(last.prev)
    {
      if first != null {
        first.prev := last;
      }
      if last != null {
        last.next := first;
      }
    }

    /** An iteration from either end that deletes any of the nodes right after they were returned: each original node
        is visited once, in the order of the iteration, and exactly the others remain. */
    method IterateDeleting(fromHead: bool, choose: nat -> bool) returns (visited: seq<Node<T>>)
      requires Valid()
      modifies this, nodes
      ensures Valid() && visited == Ordered(old(nodes), fromHead)
      ensures Ordered(nodes, fromHead) == Kept(Ordered(old(nodes), fromHead), choose)
    {
      hide Linked, Distinct, Walked, Ordered;
      visited := [];
      ghost var all, kept: seq<Node<T>> := Ordered(nodes, fromHead), [];
      OrderedEnds(nodes, fromHead);
      var next := if fromHead then head else tail;
      WalkStarts(all, choose);
      while next != null
        invariant Valid() && Walked(all, choose, visited, kept, next, Ordered(nodes, fromHead))
        invariant forall k :: 0 <= k < |nodes| ==> nodes[k] in old(nodes)
        decreases |all| - |visited|
      {
        var current: Node<T> := next;
        var delete := choose(|visited|);
        WalkGoesOn(all, choose, visited, kept, current, Ordered(nodes, fromHead));
        next := StepOver(kept, all, |visited|, fromHead, current, delete);
        visited := visited + [current];
        kept := if delete then kept else kept + [current];
      }
      WalkEnds(all, choose, visited, kept, Ordered(nodes, fromHead));
    }

    /** One round of the iteration: listNext, and listDelNode on the node just returned if it is to go. */
    method StepOver(ghost kept: seq<Node<T>>, ghost all: seq<Node<T>>, ghost i: nat, fromHead: bool, current: Node<T>,
                    delete: bool) returns (next: Node?<T>)
      requires Valid() && i < |all| && Ordered(nodes, fromHead) == kept + all[i..] && current == all[i]
      modifies this, nodes
      ensures Valid() && next == At(all, i + 1)
      ensures Ordered(nodes, fromHead) == (if delete then kept else kept + [current]) + all[i + 1..]
      ensures forall k :: 0 <= k < |nodes| ==> nodes[k] in old(nodes)
    {
      hide Linked, Distinct, Ordered;
      OrderedSize(nodes, fromHead);
      ghost var p := if fromHead then |kept| else |nodes| - 1 - |kept|;
      Position(nodes, kept, all, i, fromHead);
      if fromHead {
        next := Next(p, current);
      } else {
        next := Prev(p, current);
      }
      if delete {
        DelNode(p, current);
      }
    }

    method Prev(ghost k: nat, node: Node<T>) returns (prev: Node?<T>)
      requires Valid() && k < |nodes| && nodes[k] == node
      ensures prev == At(nodes, k - 1)
    {
      assert LinkAt(nodes, k);
      prev := node.prev;
    }

    /** listNext from the head. */
    method Next(ghost k: nat, node: Node<T>) returns (next: Node?<T>)
      requires Valid() && k < |nodes| && nodes[k] == node
      ensures next == At(nodes, k + 1)
    {
      assert LinkAt(nodes, k);
      next := node.next;
    }

    /** listDup: a fresh list of the values, or of their copies where there is a dup method; null when a copy fails. The
        original keeps its nodes. */
    method Dup(dup: Option<T -> Option<T>>) returns (copy: List?<T>)
      requires Valid()
      ensures copy == null <==> Copies(dup, Values(nodes)).None?
      ensures copy != null ==> fresh(copy) && copy.Valid() && Some(Values(copy.nodes)) == Copies(dup, Values(nodes))
      ensures copy != null ==> forall k :: 0 <= k < |copy.nodes| ==> fresh(copy.nodes[k])
    {
      hide Copies;
      var list := new List();
      var next := head;
      ghost var i := 0;
      NoCopies(dup, nodes);
      while next != null
        invariant 0 <= i <= |nodes| && next == At(nodes, i)
        invariant fresh(list) && list.Valid() && (forall k :: 0 <= k < |list.nodes| ==> fresh(list.nodes[k]))
        invariant Copies(dup, Values(nodes[..i])) == Some(Values(list.nodes))
        decreases |nodes| - i
      {
        assert LinkAt(nodes, i);
        var node := next;
        next := node.next;
        ghost var before := list.nodes;
        CopiesOneMore(dup, nodes, i);
        var value := node.value;
        if dup.Some? {
          var r := dup.value(value);
          if r.None? {
            FailureStays(dup, Values(nodes), i + 1);
            return null;
          }
          value := r.value;
        }
        list.AddNodeTail(value);
        assert Values(list.nodes) == Values(before) + [value];
        i := i + 1;
      }
      assert nodes[..i] == nodes;
      return list;
    }

    /** listIndex: from the head for i >= 0, from the tail for i < 0, null when there is no such node. */
    method Index(i: int) returns (node: Node?<T>)
      requires Valid()
      ensures node == At(nodes, if i < 0 then |nodes| + i else i)
    {
      if i < 0 {
        var k := -i - 1;
        node := tail;
        ghost var at := |nodes| - 1;
        while k > 0 && node != null
          invariant k >= 0 && -1 <= at < |nodes| && node == At(nodes, at) && (node != null ==> at - k == |nodes| + i)
          invariant node == null ==> |nodes| + i < 0
          decreases k
        {
          assert LinkAt(nodes, at);
          node := node.prev;
          k := k - 1;
          at := at - 1;
        }
      } else {
        var k := i;
        node := head;
        ghost var at := 0;
        while k > 0 && node != null
          invariant k >= 0 && 0 <= at <= |nodes| && node == At(nodes, at) && (node != null ==> at + k == i)
          invariant node == null ==> i >= |nodes|
          decreases k
        {
          assert LinkAt(nodes, at);
          node := node.next;
          k := k - 1;
          at := at + 1;
        }
      }
    }
  }

  /** The nodes that were not chosen. */
  function Kept<T>(nodes: seq<Node<T>>, choose: nat -> bool): seq<Node<T>> {
    if nodes == [] then [] else
    var i := |nodes| - 1;
    Kept(nodes[..i], choose) + if choose(i) then [] else [nodes[i]]
  }

  /** How many of the first `k` positions are not chosen. */
  function Unchosen(choose: nat -> bool, k: nat): nat {
    if k == 0 then 0 else Unchosen(choose, k - 1) + if choose(k - 1) then 0 else 1
  }

  /** Every node that was not chosen is kept, in the old order, and there are no others. */
  lemma {:induction false} KeptExactly<T>(nodes: seq<Node<T>>, choose: nat -> bool, k: nat)
    requires k < |nodes|
    ensures |Kept(nodes, choose)| == Unchosen(choose, |nodes|)
    ensures !choose(k) ==> Unchosen(choose, k) < |Kept(nodes, choose)| && Kept(nodes, choose)[Unchosen(choose, k)] == nodes[k]
    decreases |nodes|
  {
    var i := |nodes| - 1;
    if i == 0 {
      assert Kept(nodes[..0], choose) == [];
    } else {
      KeptExactly(nodes[..i], choose, if k < i then k else 0);
    }
  }

  /** The nodes in the order of an iteration. */
  function Ordered<T>(nodes: seq<Node<T>>, fromHead: bool): seq<Node<T>> {
    if fromHead then nodes else seq(|nodes|, k requires 0 <= k < |nodes| => nodes[|nodes| - 1 - k])
  }

  lemma OrderedSize<T>(nodes: seq<Node<T>>, fromHead: bool)
    ensures |Ordered(nodes, fromHead)| == |nodes|
  {
  }

  lemma OrderedEnds<T>(nodes: seq<Node<T>>, fromHead: bool)
    ensures At(Ordered(nodes, fromHead), 0) == if fromHead then At(nodes, 0) else At(nodes, |nodes| - 1)
  {
  }

  /** The node at the iterator, and what its removal or its keeping leaves. */
  lemma Position<T>(nodes: seq<Node<T>>, kept: seq<Node<T>>, all: seq<Node<T>>, i: nat, fromHead: bool)
    requires i < |all| && Ordered(nodes, fromHead) == kept + all[i..]
    ensures |kept| < |nodes|
    ensures var p := if fromHead then |kept| else |nodes| - 1 - |kept|;
            && nodes[p] == all[i] && At(nodes, if fromHead then p + 1 else p - 1) == At(all, i + 1)
            && Ordered(nodes[..p] + nodes[p + 1..], fromHead) == kept + all[i + 1..]
            && Ordered(nodes, fromHead) == (kept + [all[i]]) + all[i + 1..]
  {
    OrderedSize(nodes, fromHead);
    var p := if fromHead then |kept| else |nodes| - 1 - |kept|;
    var o, m := Ordered(nodes, fromHead), nodes[..p] + nodes[p + 1..];
    assert o[|kept|] == nodes[p];
    if |kept| + 1 < |nodes| {
      assert o[|kept| + 1] == all[i..][1] == all[i + 1];
    }
    forall k | 0 <= k < |m|
      ensures Ordered(m, fromHead)[k] == (kept + all[i + 1..])[k]
    {
      assert Ordered(m, fromHead)[k] == o[if k < |kept| then k else k + 1];
    }
  }

  /** What a dup method makes of the values, None when it fails on one. */
  function Copies<T>(dup: Option<T -> Option<T>>, values: seq<T>): Option<seq<T>> {
    if values == [] then Some([]) else
    var n := |values| - 1;
    var before := Copies(dup, values[..n]);
    var last := if dup.Some? then dup.value(values[n]) else Some(values[n]);
    if before.None? || last.None? then None else Some(before.value + [last.value])
  }

  /** Copying succeeds exactly when the dup method succeeds on every value, and then holds what it made of each. */
  lemma {:induction false} CopiesExactly<T>(dup: Option<T -> Option<T>>, values: seq<T>)
    ensures Copies(dup, values).Some? <==> (dup.None? || forall k :: 0 <= k < |values| ==> dup.value(values[k]).Some?)
    ensures Copies(dup, values).Some? ==>
              && |Copies(dup, values).value| == |values|
              && forall k :: 0 <= k < |values| ==>
                   Some(Copies(dup, values).value[k]) == if dup.Some? then dup.value(values[k]) else Some(values[k])
    decreases |values|
  {
    if values != [] {
      var n := |values| - 1;
      CopiesExactly(dup, values[..n]);
      assert forall k :: 0 <= k < n ==> values[..n][k] == values[k];
    }
  }

  lemma NoCopies<T>(dup: Option<T -> Option<T>>, nodes: seq<Node<T>>)
    ensures Copies(dup, Values(nodes[..0])) == Some([]) && Values<T>([]) == []
  {
  }

  lemma CopiesOneMore<T>(dup: Option<T -> Option<T>>, nodes: seq<Node<T>>, i: nat)
    requires i < |nodes|
    ensures var before, last := Copies(dup, Values(nodes[..i])), if dup.Some? then dup.value(nodes[i].value) else Some(nodes[i].value);
            Copies(dup, Values(nodes[..i + 1])) == if before.None? || last.None? then None else Some(before.value + [last.value])
    ensures Values(nodes[..i + 1]) == Values(nodes)[..i + 1]
  {
    assert Values(nodes[..i + 1])[..i] == Values(nodes[..i]);
  }

  lemma {:induction false} FailureStays<T>(dup: Option<T -> Option<T>>, values: seq<T>, i: nat)
    requires i <= |values| && Copies(dup, values[..i]).None?
    ensures Copies(dup, values).None?
    decreases |values|
  {
    if i == |values| {
      assert values[..i] == values;
    } else {
      var rest := values[..|values| - 1];
      assert rest[..i] == values[..i];
      FailureStays(dup, rest, i);
    }
  }

  lemma NothingIsLinked<T>()
    ensures Distinct<T>([]) && Linked<T>([])
  {
  }

  /** Only the first node is the head, only the last the tail. */
  lemma Ends<T>(nodes: seq<Node<T>>, i: nat)
    requires Distinct(nodes) && i < |nodes|
    ensures (nodes[i] == At(nodes, 0) <==> i == 0) && (nodes[i] == At(nodes, |nodes| - 1) <==> i == |nodes| - 1)
  {
    assert Differ(nodes, i, 0) && Differ(nodes, i, |nodes| - 1);
  }

  /** In the middle of an iteration: what was visited, what of it is kept, and where the iterator stands. */
  ghost predicate Walked<T>(all: seq<Node<T>>, choose: nat -> bool, visited: seq<Node<T>>, kept: seq<Node<T>>,
                            next: Node?<T>, nodes: seq<Node<T>>)
  {
    var i := |visited|;
    i <= |all| && visited == all[..i] && kept == Kept(visited, choose) && nodes == kept + all[i..] && next == At(all, i)
  }

  lemma WalkStarts<T>(all: seq<Node<T>>, choose: nat -> bool)
    ensures Walked(all, choose, [], [], At(all, 0), all)
  {
    assert all[0..] == all && all[..0] == [];
  }

  lemma WalkGoesOn<T>(all: seq<Node<T>>, choose: nat -> bool, visited: seq<Node<T>>, kept: seq<Node<T>>,
                      next: Node<T>, nodes: seq<Node<T>>)
    requires Walked(all, choose, visited, kept, next, nodes)
    ensures var i := |visited|; i < |all| && nodes == kept + all[i..] && next == all[i]
    ensures var i := |visited|; var kept' := if choose(i) then kept else kept + [next];
            Walked(all, choose, visited + [next], kept', At(all, i + 1), kept' + all[i + 1..])
  {
    var i := |visited|;
    assert all[..i + 1] == all[..i] + [all[i]];
    assert (visited + [next])[..i] == visited;
  }

  lemma WalkEnds<T>(all: seq<Node<T>>, choose: nat -> bool, visited: seq<Node<T>>, kept: seq<Node<T>>, nodes: seq<Node<T>>)
    requires Walked(all, choose, visited, kept, null, nodes)
    ensures visited == all && nodes == Kept(all, choose)
  {
    assert all[..|all|] == all && kept + [] == kept;
  }

  lemma DistinctRotated<T>(nodes: seq<Node<T>>)
    requires Distinct(nodes) && nodes != []
    ensures Distinct([nodes[|nodes| - 1]] + nodes[..|nodes| - 1])
  {
    var n := |nodes| - 1;
    DistinctSlice(nodes, 0, n);
    DistinctSlice(nodes, n, n + 1);
    assert nodes[0..n] == nodes[..n] && nodes[n..n + 1] == [nodes[n]];
    DistinctParts([nodes[n]], nodes[..n]);
  }
}
