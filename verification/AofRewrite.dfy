/** Writing a list or a set into a rewritten log in commands of at most 64 elements, and reading it back. */
module AofRewrite {
  import opened Base
  import opened AofFormat
  import opened AofLoad
  import opened AofRecovery

  const AOF_REWRITE_ITEMS_PER_CMD := 64

  /** The commands a collection is cut into. */
  function Chunks(name: Bytes, key: Bytes, items: seq<Bytes>): seq<Command> {
    if items == [] then [] else
    var n := Min(AOF_REWRITE_ITEMS_PER_CMD, |items|);
    [[name, key] + items[..n]] + Chunks(name, key, items[n..])
  }

  /** What is still to be written with `items` left and `count` of them in the open command. */
  function Emit(name: Bytes, key: Bytes, count: nat, items: seq<Bytes>): Bytes
    decreases |items|
  {
    if items == [] then [] else
    (if count == 0 then Opening(name, key, |items|) else []) + Bulk(items[0])
    + Emit(name, key, if count + 1 == AOF_REWRITE_ITEMS_PER_CMD then 0 else count + 1, items[1..])
  }

  function Opening(name: Bytes, key: Bytes, left: nat): Bytes {
    "*" + Decimal(2 + Min(AOF_REWRITE_ITEMS_PER_CMD, left)) + CRLF + Bulk(name) + Bulk(key)
  }

  /** rewriteListObject with RPUSH, rewriteSetObject with SADD: one loop over the elements in iteration order. */
  method RewriteObject(name: Bytes, key: Bytes, elements: seq<Bytes>) returns (out: Bytes)
    ensures out == PrintLog(Chunks(name, key, elements))
  {
    hide Emit, Chunks, PrintLog, Bulk, Opening;
    var count, items, j := 0, |elements|, 0;
    out := [];
    assert elements[0..] == elements;
    while j < |elements|
      invariant 0 <= j <= |elements| && items == |elements| - j && count < AOF_REWRITE_ITEMS_PER_CMD
      invariant out + Emit(name, key, count, elements[j..]) == Emit(name, key, 0, elements)
    {
      ghost var before, rest := out, elements[j..];
      ghost var open := if count == 0 then Opening(name, key, |rest|) else [];
      assert rest[0] == elements[j] && rest[1..] == elements[j + 1..];
      EmitUnfolds(name, key, count, rest);
      if count == 0 {
        var cmdItems := if items > AOF_REWRITE_ITEMS_PER_CMD then AOF_REWRITE_ITEMS_PER_CMD else items;
        var header := WriteOpening(name, key, cmdItems, items);
        out := out + header;
      }
      out := out + Bulk(elements[j]);
      count := count + 1;
      if count == AOF_REWRITE_ITEMS_PER_CMD {
        count := 0;
      }
      EmitStep(before, open, Bulk(elements[j]), Emit(name, key, count, rest[1..]));
      items := items - 1;
      j := j + 1;
    }
    assert elements[j..] == [] && out + [] == out;
    EmitsChunks(name, key, elements);
    EmitsNothing(name, key, count);
  }

  lemma EmitsNothing(name: Bytes, key: Bytes, count: nat)
    ensures Emit(name, key, count, []) == []
  {
  }

  lemma EmitUnfolds(name: Bytes, key: Bytes, count: nat, items: seq<Bytes>)
    requires items != []
    ensures var open := if count == 0 then Opening(name, key, |items|) else [];
            var next := if count + 1 == AOF_REWRITE_ITEMS_PER_CMD then 0 else count + 1;
            Emit(name, key, count, items) == open + Bulk(items[0]) + Emit(name, key, next, items[1..])
  {
  }

  method WriteOpening(name: Bytes, key: Bytes, cmdItems: nat, ghost left: nat) returns (out: Bytes)
    requires cmdItems == Min(AOF_REWRITE_ITEMS_PER_CMD, left)
    ensures out == Opening(name, key, left)
  {
    out := "*" + Decimal(2 + cmdItems) + CRLF;
    out := out + Bulk(name);
    out := out + Bulk(key);
  }

  lemma EmitStep(out: Bytes, open: Bytes, bulk: Bytes, rest: Bytes)
    ensures (out + open + bulk) + rest == out + (open + bulk + rest)
    ensures out + [] + bulk == out + bulk
  {
  }

  /** The rest of an open command, then what a new command starts with. */
  lemma {:induction false} EmitsTail(name: Bytes, key: Bytes, count: nat, items: seq<Bytes>)
    requires 1 <= count <= AOF_REWRITE_ITEMS_PER_CMD
    ensures var m := Min(AOF_REWRITE_ITEMS_PER_CMD - count, |items|);
            Emit(name, key, if count == AOF_REWRITE_ITEMS_PER_CMD then 0 else count, items)
            == Bulks(items[..m]) + Emit(name, key, 0, items[m..])
    decreases |items|
  {
    hide Bulk, Opening, Emit;
    var m := Min(AOF_REWRITE_ITEMS_PER_CMD - count, |items|);
    if m == 0 {
      assert items[..0] == [] && items[0..] == items;
      if items == [] {
        EmitsNothing(name, key, count);
        EmitsNothing(name, key, 0);
      }
    } else {
      var tail, rest := items[1..], Emit(name, key, 0, items[m..]);
      EmitsTail(name, key, count + 1, tail);
      EmitUnfolds(name, key, count, items);
      assert items[..m][0] == items[0] && items[..m][1..] == tail[..m - 1] && items[m..] == tail[m - 1..];
      assert Bulks(items[..m]) == Bulk(items[0]) + Bulks(tail[..m - 1]);
      assert [] + Bulk(items[0]) == Bulk(items[0]);
      Assoc(Bulk(items[0]), Bulks(tail[..m - 1]), rest);
    }
  }

  /** Every command declares exactly the arguments it is given. */
  lemma {:induction false} EmitsChunks(name: Bytes, key: Bytes, items: seq<Bytes>)
    ensures Emit(name, key, 0, items) == PrintLog(Chunks(name, key, items))
    decreases |items|
  {
    hide Bulk, Bulks, Opening, PrintCommand;
    if items != [] {
      var n := Min(AOF_REWRITE_ITEMS_PER_CMD, |items|);
      EmitsTail(name, key, 1, items[1..]);
      EmitsChunks(name, key, items[n..]);
      assert items[1..][n - 1..] == items[n..];
      assert items[1..][..n - 1] == items[1..n];
      EmitsOne(name, key, items);
      var rest := PrintLog(Chunks(name, key, items[n..]));
      ChunkText(Opening(name, key, |items|), Bulk(items[0]), Bulks(items[1..n]), rest);
      var cs := Chunks(name, key, items);
      assert cs[0] == [name, key] + items[..n] && cs[1..] == Chunks(name, key, items[n..]);
    }
  }

  lemma ChunkText(open: Bytes, bulk: Bytes, bulks: Bytes, rest: Bytes)
    ensures open + bulk + (bulks + rest) == (open + bulk + bulks) + rest
  {
  }

  lemma EmitsOne(name: Bytes, key: Bytes, items: seq<Bytes>)
    requires items != []
    ensures var n := Min(AOF_REWRITE_ITEMS_PER_CMD, |items|);
            Opening(name, key, |items|) + Bulk(items[0]) + Bulks(items[1..n]) == PrintCommand([name, key] + items[..n])
  {
    hide Bulk, Decimal;
    var n := Min(AOF_REWRITE_ITEMS_PER_CMD, |items|);
    var c := [name, key] + items[..n];
    assert c[1..] == [key] + items[..n] && c[1..][1..] == items[..n];
    assert items[..n][0] == items[0] && items[..n][1..] == items[1..n];
    assert Bulks(items[..n]) == Bulk(items[0]) + Bulks(items[1..n]);
    assert c[1..][0] == key && Bulks(c[1..]) == Bulk(key) + Bulks(items[..n]);
    assert Bulks(c) == Bulk(name) + (Bulk(key) + (Bulk(items[0]) + Bulks(items[1..n])));
  }

  lemma {:induction false} ChunksAreWellFormed(name: Bytes, key: Bytes, items: seq<Bytes>)
    requires |name| <= LONG_MAX && |key| <= LONG_MAX && forall i :: 0 <= i < |items| ==> |items[i]| <= LONG_MAX
    ensures WellFormedLog(Chunks(name, key, items))
    ensures forall c :: c in Chunks(name, key, items) ==> |c| >= 3 && c[0] == name && c[1] == key
    decreases |items|
  {
    if items != [] {
      var n := Min(AOF_REWRITE_ITEMS_PER_CMD, |items|);
      ChunksAreWellFormed(name, key, items[n..]);
    }
  }

  /** RPUSH and SADD on the collection at the key. */
  function Push(list: seq<Bytes>, c: Command): seq<Bytes>
    requires |c| >= 2
  {
    list + c[2..]
  }

  function Add(elements: set<Bytes>, c: Command): set<Bytes>
    requires |c| >= 2
  {
    elements + set x | x in c[2..]
  }

  function PushAll(list: seq<Bytes>, cs: seq<Command>): seq<Bytes>
    requires forall c :: c in cs ==> |c| >= 2
    decreases |cs|
  {
    if cs == [] then list else PushAll(Push(list, cs[0]), cs[1..])
  }

  function AddAll(elements: set<Bytes>, cs: seq<Command>): set<Bytes>
    requires forall c :: c in cs ==> |c| >= 2
    decreases |cs|
  {
    if cs == [] then elements else AddAll(Add(elements, cs[0]), cs[1..])
  }

  lemma {:induction false} PushRebuilds(name: Bytes, key: Bytes, done: seq<Bytes>, items: seq<Bytes>)
    requires forall c :: c in Chunks(name, key, items) ==> |c| >= 2
    ensures PushAll(done, Chunks(name, key, items)) == done + items
    decreases |items|
  {
    if items != [] {
      var n := Min(AOF_REWRITE_ITEMS_PER_CMD, |items|);
      var cs := Chunks(name, key, items);
      assert cs[0] == [name, key] + items[..n] && cs[1..] == Chunks(name, key, items[n..]);
      assert cs[0][2..] == items[..n];
      PushRebuilds(name, key, done + items[..n], items[n..]);
      assert (done + items[..n]) + items[n..] == done + items;
    }
  }

  lemma {:induction false} AddRebuilds(name: Bytes, key: Bytes, done: set<Bytes>, items: seq<Bytes>)
    requires forall c :: c in Chunks(name, key, items) ==> |c| >= 2
    ensures AddAll(done, Chunks(name, key, items)) == done + set x | x in items
    decreases |items|
  {
    if items != [] {
      var n := Min(AOF_REWRITE_ITEMS_PER_CMD, |items|);
      var cs := Chunks(name, key, items);
      assert cs[0] == [name, key] + items[..n] && cs[1..] == Chunks(name, key, items[n..]);
      assert cs[0][2..] == items[..n];
      var more := done + set x | x in items[..n];
      AddRebuilds(name, key, more, items[n..]);
      assert items == items[..n] + items[n..];
      assert more + (set x | x in items[n..]) == done + set x | x in items;
    }
  }

  /** A collection of any size survives being rewritten: the emitted text loads as commands on its key whose replay
      rebuilds the list in order, or the set. */
  lemma CollectionSurvives(known: Bytes -> bool, name: Bytes, key: Bytes, items: seq<Bytes>)
    requires known(name) && ToLower(name) != "multi"
    requires |name| <= LONG_MAX && |key| <= LONG_MAX && forall i :: 0 <= i < |items| ==> |items[i]| <= LONG_MAX
    requires items != []
    ensures var out := Load(known, false, PrintLog(Chunks(name, key, items)));
            && out.Loaded? && (forall c :: c in out.cmds ==> |c| >= 3 && c[0] == name && c[1] == key)
            && PushAll([], out.cmds) == items && AddAll({}, out.cmds) == set x | x in items
  {
    hide Load, PrintLog;
    var cs := Chunks(name, key, items);
    ChunksAreWellFormed(name, key, items);
    assert forall i :: 0 <= i < |cs| ==> cs[i] in cs;
    NeverMulti(cs, name);
    LogLoads(known, cs);
    PushRebuilds(name, key, [], items);
    AddRebuilds(name, key, {}, items);
    assert [] + items == items;
  }

  lemma {:induction false} NeverMulti(cs: seq<Command>, name: Bytes)
    requires ToLower(name) != "multi" && forall i :: 0 <= i < |cs| ==> cs[i] != [] && cs[i][0] == name
    ensures !MultiAfterAll(false, cs)
    decreases |cs|
  {
    if cs != [] {
      NeverMulti(cs[1..], name);
    }
  }
}
