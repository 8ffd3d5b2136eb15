/** The keys of a cluster node by hash slot: a counter per slot and an ordered index of slot-prefixed keys, kept in
    step with the dictionary they speed up. */
module SlotIndex {
  import opened Base

  type Byte = b: nat | b < 256
  type Bytes = seq<Byte>

  // ----- hash tags -----

  /** The first position of `c` from `i` on, or the length. */
  function Find(s: Bytes, c: Byte, i: nat): (j: nat)
    requires i <= |s|
    ensures i <= j <= |s| && (forall k :: i <= k < j ==> s[k] != c) && (j < |s| ==> s[j] == c)
    decreases |s| - i
  {
    if i == |s| || s[i] == c then i else Find(s, c, i + 1)
  }

  const OPEN: Byte := '{' as int
  const CLOSE: Byte := '}' as int

  /** What of a key is hashed: the text between the first { and the first } after it when there is any, else all. */
  function Hashed(key: Bytes): Bytes {
    var s := Find(key, OPEN, 0);
    if s == |key| then key else
    var e := Find(key, CLOSE, s + 1);
    if e == |key| || e == s + 1 then key else key[s + 1..e]
  }

  /** keyHashSlot, with both scans. */
  method KeyHashSlot(crc16: Bytes -> nat, key: Bytes) returns (slot: nat)
    ensures slot == SlotOf(crc16, key)
  {
    var s := 0;
    while s < |key| && key[s] != OPEN
      invariant 0 <= s <= |key| && Find(key, OPEN, s) == Find(key, OPEN, 0)
    {
      s := s + 1;
    }
    if s == |key| {
      return crc16(key) % CLUSTER_SLOTS;
    }
    var e := s + 1;
    while e < |key| && key[e] != CLOSE
      invariant s + 1 <= e <= |key| && Find(key, CLOSE, e) == Find(key, CLOSE, s + 1)
    {
      e := e + 1;
    }
    if e == |key| || e == s + 1 {
      return crc16(key) % CLUSTER_SLOTS;
    }
    return crc16(key[s + 1..e]) % CLUSTER_SLOTS;
  }

  function SlotOf(crc16: Bytes -> nat, key: Bytes): (slot: nat)
    ensures slot < CLUSTER_SLOTS
  {
    crc16(Hashed(key)) % CLUSTER_SLOTS
  }

  lemma {:induction false} FindIs(s: Bytes, c: Byte, i: nat, j: nat)
    requires i <= j < |s| && s[j] == c && forall k :: i <= k < j ==> s[k] != c
    ensures Find(s, c, i) == j
    decreases j - i
  {
    if i < j {
      FindIs(s, c, i + 1, j);
    }
  }

  /** Keys with the same tag share a slot, whatever surrounds it. */
  lemma SameTagSameSlot(crc16: Bytes -> nat, before: Bytes, tag: Bytes, after: Bytes)
    requires tag != [] && OPEN !in before && CLOSE !in tag
    ensures SlotOf(crc16, before + [OPEN] + tag + [CLOSE] + after) == crc16(tag) % CLUSTER_SLOTS
  {
    var key := before + [OPEN] + tag + [CLOSE] + after;
    var s := |before|;
    var e := s + 1 + |tag|;
    assert forall k :: 0 <= k < s ==> key[k] == before[k];
    assert forall k :: s + 1 <= k < e ==> key[k] == tag[k - s - 1];
    FindIs(key, OPEN, 0, s);
    FindIs(key, CLOSE, s + 1, e);
    assert key[s + 1..e] == tag;
  }

  /** A key without an opening brace is hashed whole. */
  lemma NoTag(crc16: Bytes -> nat, key: Bytes)
    requires OPEN !in key
    ensures SlotOf(crc16, key) == crc16(key) % CLUSTER_SLOTS
  {
    assert forall k :: 0 <= k < |key| ==> key[k] in key;
  }

  /** So is one whose first opening brace is never closed. */
  lemma OpenTag(crc16: Bytes -> nat, before: Bytes, after: Bytes)
    requires OPEN !in before && CLOSE !in after
    ensures SlotOf(crc16, before + [OPEN] + after) == crc16(before + [OPEN] + after) % CLUSTER_SLOTS
  {
    var key, s := before + [OPEN] + after, |before|;
    assert forall k :: 0 <= k < s ==> key[k] == before[k];
    FindIs(key, OPEN, 0, s);
    assert forall k :: s + 1 <= k < |key| ==> key[k] == after[k - s - 1] && key[k] in after;
  }

  /** And one whose first brace is closed at once, whatever other braces follow. */
  lemma EmptyTag(crc16: Bytes -> nat, before: Bytes, after: Bytes)
    requires OPEN !in before
    ensures SlotOf(crc16, before + [OPEN, CLOSE] + after) == crc16(before + [OPEN, CLOSE] + after) % CLUSTER_SLOTS
  {
    var key, s := before + [OPEN, CLOSE] + after, |before|;
    assert forall k :: 0 <= k < s ==> key[k] == before[k];
    FindIs(key, OPEN, 0, s);
    FindIs(key, CLOSE, s + 1, s + 1);
  }

  ghost predicate Tagged(key: Bytes, before: Bytes, tag: Bytes, after: Bytes) {
    OPEN !in before && CLOSE !in tag && key == before + [OPEN] + tag + [CLOSE] + after
  }

  ghost predicate Unclosed(key: Bytes, before: Bytes, after: Bytes) {
    OPEN !in before && CLOSE !in after && key == before + [OPEN] + after
  }

  /** Every key has no brace, an unclosed one, or a tag, which may be empty: together these say what every key's slot is. */
  lemma EveryKeyHasASlot(crc16: Bytes -> nat, key: Bytes)
    ensures OPEN !in key || (exists before, after :: Unclosed(key, before, after)) || (exists before, tag, after :: Tagged(key, before, tag, after))
    ensures OPEN !in key || (exists before, after :: Unclosed(key, before, after)) ==> SlotOf(crc16, key) == crc16(key) % CLUSTER_SLOTS
    ensures forall before, tag, after :: Tagged(key, before, tag, after) ==>
              SlotOf(crc16, key) == crc16(if tag == [] then key else tag) % CLUSTER_SLOTS
  {
    hide SlotOf;
    KeyShapes(key);
    if OPEN !in key {
      NoTag(crc16, key);
    } else if exists before, after :: Unclosed(key, before, after) {
      var before, after :| Unclosed(key, before, after);
      OpenTag(crc16, before, after);
    }
    forall before, tag, after | Tagged(key, before, tag, after)
      ensures SlotOf(crc16, key) == crc16(if tag == [] then key else tag) % CLUSTER_SLOTS
    {
      if tag == [] {
        assert key == before + [OPEN, CLOSE] + after;
        EmptyTag(crc16, before, after);
      } else {
        SameTagSameSlot(crc16, before, tag, after);
      }
    }
  }

  lemma CutAtFirst(s: Bytes, c: Byte) returns (i: nat)
    requires c in s
    ensures i < |s| && c !in s[..i] && s == s[..i] + [c] + s[i + 1..]
  {
    i := Find(s, c, 0);
  }

  lemma KeyShapes(key: Bytes)
    ensures OPEN !in key || (exists before, after :: Unclosed(key, before, after)) || (exists before, tag, after :: Tagged(key, before, tag, after))
  {
    hide Tagged, Unclosed;
    if OPEN in key {
      var s := CutAtFirst(key, OPEN);
      RestShapes(key, key[..s], key[s + 1..]);
    }
  }

  lemma RestShapes(key: Bytes, before: Bytes, rest: Bytes)
    requires OPEN !in before && key == before + [OPEN] + rest
    ensures Unclosed(key, before, rest) || exists tag, after :: Tagged(key, before, tag, after)
  {
    hide Tagged;
    if CLOSE in rest {
      var e := CutAtFirst(rest, CLOSE);
      TagInRest(key, before, rest, rest[..e], rest[e + 1..]);
    }
  }

  lemma TagInRest(key: Bytes, before: Bytes, rest: Bytes, tag: Bytes, after: Bytes)
    requires OPEN !in before && CLOSE !in tag && key == before + [OPEN] + rest && rest == tag + [CLOSE] + after
    ensures Tagged(key, before, tag, after)
  {
    assert before + [OPEN] + (tag + [CLOSE] + after) == before + [OPEN] + tag + [CLOSE] + after;
  }

  // ----- the order of the index -----

  predicate Leq(a: Bytes, b: Bytes) {
    a == [] || (b != [] && (a[0] < b[0] || (a[0] == b[0] && Leq(a[1..], b[1..]))))
  }

  lemma {:induction false} LeqTotal(a: Bytes, b: Bytes)
    ensures Leq(a, b) || Leq(b, a)
    ensures Leq(a, b) && Leq(b, a) ==> a == b
  {
    if a != [] && b != [] && a[0] == b[0] {
      LeqTotal(a[1..], b[1..]);
      assert a == [a[0]] + a[1..] && b == [b[0]] + b[1..];
    }
  }

  lemma {:induction false} LeqTransitive(a: Bytes, b: Bytes, c: Bytes)
    requires Leq(a, b) && Leq(b, c)
    ensures Leq(a, c)
  {
    if a != [] && a[0] == b[0] && b[0] == c[0] {
      LeqTransitive(a[1..], b[1..], c[1..]);
    }
  }

  ghost predicate IsLeast(e: Bytes, s: set<Bytes>) {
    e in s && forall f :: f in s ==> Leq(e, f)
  }

  lemma {:induction false} LeastExists(s: set<Bytes>) returns (e: Bytes)
    requires s != {}
    ensures IsLeast(e, s)
    decreases |s|
  {
    var x :| x in s;
    var rest := s - {x};
    if rest == {} {
      e := x;
      LeqTotal(x, x);
      assert s == {x} + rest;
    } else {
      var y := LeastExists(rest);
      LeqTotal(x, y);
      LeqTotal(x, x);
      e := if Leq(x, y) then x else y;
      forall f | f in s
        ensures Leq(e, f)
      {
        if f != x {
          assert f in rest;
          if e == x {
            LeqTransitive(x, y, f);
          }
        }
      }
    }
  }

  /** What lies between a two-byte prefix and an entry with that prefix has the prefix. */
  lemma PrefixIsConvex(p: Bytes, e: Bytes, f: Bytes)
    requires |p| == 2 && |e| >= 2 && |f| >= 2 && f[0] == p[0] && f[1] == p[1]
    requires Leq(p, e) && Leq(e, f)
    ensures e[0] == p[0] && e[1] == p[1]
  {
    assert e[1..] != [] && f[1..] != [] && p[1..] != [];
  }

  lemma PrefixIsBelow(p: Bytes, f: Bytes)
    requires |p| == 2 && |f| >= 2 && f[0] == p[0] && f[1] == p[1]
    ensures Leq(p, f)
  {
    assert p[1..][0] == f[1..][0] && p[1..][1..] == [];
  }

  // ----- the node -----

  function Prefix(slot: nat): (p: Bytes)
    requires slot < CLUSTER_SLOTS
    ensures |p| == 2
  {
    [slot / 256, slot % 256]
  }

  function Indexed(crc16: Bytes -> nat, key: Bytes): Bytes {
    Prefix(SlotOf(crc16, key)) + key
  }

  ghost predicate HasPrefix(e: Bytes, slot: nat)
    requires slot < CLUSTER_SLOTS
  {
    |e| >= 2 && e[0] == Prefix(slot)[0] && e[1] == Prefix(slot)[1]
  }

  /** The index entry tells the slot and the key. */
  lemma IndexedDecides(crc16: Bytes -> nat, key: Bytes, slot: nat)
    requires slot < CLUSTER_SLOTS
    ensures Indexed(crc16, key)[2..] == key
    ensures HasPrefix(Indexed(crc16, key), slot) <==> SlotOf(crc16, key) == slot
  {
  }

  ghost function InSlot(crc16: Bytes -> nat, keys: set<Bytes>, slot: nat): set<Bytes> {
    set k | k in keys && SlotOf(crc16, k) == slot
  }

  ghost function IndexOf(crc16: Bytes -> nat, keys: set<Bytes>): set<Bytes> {
    set k | k in keys :: Indexed(crc16, k)
  }

  /** Counters and index are those of the keys. */
  ghost predicate Agrees(crc16: Bytes -> nat, keys: set<Bytes>, counts: seq<int>, index: set<Bytes>) {
    && |counts| == CLUSTER_SLOTS
    && (forall s :: 0 <= s < CLUSTER_SLOTS ==> counts[s] == |InSlot(crc16, keys, s)|)
    && index == IndexOf(crc16, keys)
  }

  class Keyspace<V> {
    const crc16: Bytes -> nat
    var dict: map<Bytes, V>
    var expires: map<Bytes, int>
    var counts: seq<int>          // slots_keys_count
    var index: set<Bytes>         // slots_to_keys

    ghost predicate Valid()
      reads this
    {
      Agrees(crc16, dict.Keys, counts, index) && expires.Keys <= dict.Keys
    }

    constructor (crc16: Bytes -> nat)
      ensures Valid() && dict == map[] && this.crc16 == crc16
    {
      this.crc16 := crc16;
      dict, expires, index := map[], map[], {};
      counts := seq(CLUSTER_SLOTS, _ => 0);
      new;
      assert forall s :: 0 <= s < CLUSTER_SLOTS ==> InSlot(this.crc16, dict.Keys, s) == {};
    }

    /** slotToKeyUpdateKey. */
    method SlotToKeyUpdateKey(key: Bytes, add: bool)
      requires |counts| == CLUSTER_SLOTS
      modifies this`counts, this`index
      ensures var s := SlotOf(crc16, key); counts == old(counts)[s := old(counts)[s] + if add then 1 else -1]
      ensures Indexed(crc16, key) == [SlotOf(crc16, key) / 256, SlotOf(crc16, key) % 256] + key
      ensures index == if add then old(index) + {Indexed(crc16, key)} else old(index) - {Indexed(crc16, key)}
    {
      var hashslot := KeyHashSlot(crc16, key);
      counts := counts[hashslot := counts[hashslot] + if add then 1 else -1];
      var indexed := [hashslot / 256, hashslot % 256] + key;
      if add {
        index := index + {indexed};
      } else {
        index := index - {indexed};
      }
    }

    /** dbAdd; the program aborts when the key exists. */
    method DbAdd(key: Bytes, value: V)
      requires Valid() && key !in dict
      modifies this`dict, this`counts, this`index
      ensures Valid() && dict == old(dict)[key := value]
    {
      hide Agrees, SlotOf, Indexed;
      AgreesOnSize(crc16, dict.Keys, counts, index);
      dict := dict[key := value];
      SlotToKeyUpdateKey(key, true);
      assert dict.Keys == old(dict).Keys + {key};
      AgreesAfterAdd(crc16, old(dict).Keys, key, old(counts), old(index));
    }

    /** dbSyncDelete. */
    method DbSyncDelete(key: Bytes) returns (found: bool)
      requires Valid()
      modifies this`dict, this`expires, this`counts, this`index
      ensures Valid() && found == (key in old(dict)) && dict == old(dict) - {key} && expires == old(expires) - {key}
      ensures |dict| == |old(dict)| - if found then 1 else 0
    {
      hide Agrees, SlotOf, Indexed;
      AgreesOnSize(crc16, dict.Keys, counts, index);
      KeysAfterDelete(dict, expires, key);
      expires := expires - {key};
      found := key in dict;
      if found {
        dict := dict - {key};
        SlotToKeyUpdateKey(key, false);
        AgreesAfterDelete(crc16, dict.Keys, key, old(counts), old(index));
      }
    }

    /** getKeysInSlot: as many keys of the slot as asked for, all of them if there are fewer. */
    method GetKeysInSlot(slot: nat, count: nat) returns (keys: seq<Bytes>)
      requires Valid() && slot < CLUSTER_SLOTS
      ensures |keys| == Min(count, |InSlot(crc16, dict.Keys, slot)|)
      ensures forall i :: 0 <= i < |keys| ==> keys[i] in dict && SlotOf(crc16, keys[i]) == slot
      ensures forall i, j :: 0 <= i < j < |keys| ==> keys[i] != keys[j]
    {
      hide InSlot, IndexOf, SlotOf, Indexed, Leq, Prefix;
      keys := [];
      var p := Prefix(slot);
      var left, rest := count, set e | e in index && Leq(p, e);
      ghost var seen: set<Bytes> := {};
      EntriesOfSlot(crc16, dict.Keys, slot, rest);
      while left > 0 && rest != {}
        invariant left >= 0 && left + |keys| == count && Listed(keys, seen)
        invariant rest <= index && forall e :: e in rest ==> Leq(p, e)
        invariant Visited(crc16, dict.Keys, slot, seen, rest)
        decreases left
      {
        ghost var least := LeastExists(rest);
        var e :| e in rest && forall f :: f in rest ==> Leq(e, f);
        ghost var k := EntryKey(crc16, dict.Keys, slot, e);
        rest := rest - {e};
        left := left - 1;
        if e[0] != p[0] || e[1] != p[1] {
          NothingMore(crc16, dict.Keys, slot, p, e, rest);
          VisitedAll(crc16, dict.Keys, slot, seen, rest + {e});
          ListedAreKeys(crc16, dict.Keys, slot, keys, seen);
          return;
        }
        VisitOne(crc16, dict.Keys, slot, seen, rest + {e}, k);
        keys := keys + [e[2..]];
        seen := seen + {k};
        assert rest == (rest + {e}) - {e};
      }
      if rest == {} {
        VisitedAll(crc16, dict.Keys, slot, seen, rest);
      }
      VisitedSome(crc16, dict.Keys, slot, seen, rest);
      ListedAreKeys(crc16, dict.Keys, slot, keys, seen);
    }

    /** delKeysInSlot: stops, and removes the keys of the slot and no other. */
    method DelKeysInSlot(slot: nat) returns (deleted: nat)
      requires Valid() && slot < CLUSTER_SLOTS
      modifies this`dict, this`expires, this`counts, this`index
      ensures Valid() && dict == old(dict) - InSlot(crc16, old(dict).Keys, slot)
      ensures deleted == |InSlot(crc16, old(dict).Keys, slot)|
    {
      hide IndexOf, SlotOf, Indexed, Leq, Prefix;
      deleted := 0;
      var p := Prefix(slot);
      ghost var gone: set<Bytes> := {};
      while counts[slot] != 0
        invariant Valid() && gone <= InSlot(crc16, old(dict).Keys, slot)
        invariant dict == old(dict) - gone && deleted == |gone|
        decreases |dict|
      {
        var rest := set e | e in index && Leq(p, e);
        ghost var some := SlotHasEntry(crc16, dict.Keys, slot, rest);
        var e :| e in rest && forall f :: f in rest ==> Leq(e, f);
        ghost var k := EntryKey(crc16, dict.Keys, slot, e);
        PrefixIsConvex(p, e, some);
        assert k in InSlot(crc16, old(dict).Keys, slot);
        var found := DbSyncDelete(e[2..]);
        gone := gone + {k};
        deleted := deleted + 1;
      }
      AllGone(crc16, old(dict), dict, gone, slot);
    }

    /** setExpire and removeExpire; the program aborts when the key does not exist. */
    method SetExpire(key: Bytes, when: int)
      requires Valid() && key in dict
      modifies this`expires
      ensures Valid() && expires == old(expires)[key := when]
    {
      expires := expires[key := when];
    }

    method RemoveExpire(key: Bytes) returns (removed: bool)
      requires Valid() && key in dict
      modifies this`expires
      ensures Valid() && expires == old(expires) - {key} && removed == (key in old(expires))
    {
      removed := key in expires;
      expires := expires - {key};
    }
  }

  // ----- lemmas -----

  /** A new key adds one to its slot and one entry, and changes no other slot. */
  lemma KeysChange(crc16: Bytes -> nat, keys: set<Bytes>, key: Bytes)
    requires key !in keys
    ensures forall s :: InSlot(crc16, keys + {key}, s) ==
                        InSlot(crc16, keys, s) + if s == SlotOf(crc16, key) then {key} else {}
    ensures |InSlot(crc16, keys + {key}, SlotOf(crc16, key))| == |InSlot(crc16, keys, SlotOf(crc16, key))| + 1
    ensures IndexOf(crc16, keys + {key}) == IndexOf(crc16, keys) + {Indexed(crc16, key)}
    ensures IndexOf(crc16, keys) == IndexOf(crc16, keys + {key}) - {Indexed(crc16, key)}
  {
    var s := SlotOf(crc16, key);
    assert InSlot(crc16, keys + {key}, s) == InSlot(crc16, keys, s) + {key};
    KeysDiffer(crc16, keys, key);
  }

  lemma AgreesOnSize(crc16: Bytes -> nat, keys: set<Bytes>, counts: seq<int>, index: set<Bytes>)
    requires Agrees(crc16, keys, counts, index)
    ensures |counts| == CLUSTER_SLOTS
  {
  }

  lemma AgreesAfterAdd(crc16: Bytes -> nat, keys: set<Bytes>, key: Bytes, counts: seq<int>, index: set<Bytes>)
    requires key !in keys && Agrees(crc16, keys, counts, index)
    ensures var s := SlotOf(crc16, key);
            Agrees(crc16, keys + {key}, counts[s := counts[s] + 1], index + {Indexed(crc16, key)})
  {
    hide InSlot, IndexOf, Indexed, SlotOf;
    KeysChange(crc16, keys, key);
  }

  lemma AgreesAfterDelete(crc16: Bytes -> nat, keys: set<Bytes>, key: Bytes, counts: seq<int>, index: set<Bytes>)
    requires key !in keys && Agrees(crc16, keys + {key}, counts, index)
    ensures var s := SlotOf(crc16, key);
            Agrees(crc16, keys, counts[s := counts[s] - 1], index - {Indexed(crc16, key)})
  {
    hide InSlot, IndexOf, Indexed, SlotOf;
    KeysChange(crc16, keys, key);
  }

  lemma KeysDiffer(crc16: Bytes -> nat, keys: set<Bytes>, key: Bytes)
    ensures forall k :: k in keys && k != key ==> Indexed(crc16, k) != Indexed(crc16, key)
  {
    forall k | k in keys && k != key
      ensures Indexed(crc16, k) != Indexed(crc16, key)
    {
      IndexedDecides(crc16, k, 0);
      IndexedDecides(crc16, key, 0);
    }
  }

  /** The entries from the prefix on include those of the slot. */
  lemma EntriesOfSlot(crc16: Bytes -> nat, keys: set<Bytes>, slot: nat, rest: set<Bytes>)
    requires slot < CLUSTER_SLOTS
    requires rest == set e | e in IndexOf(crc16, keys) && Leq(Prefix(slot), e)
    ensures forall k :: k in InSlot(crc16, keys, slot) ==> Indexed(crc16, k) in rest
  {
    forall k | k in InSlot(crc16, keys, slot)
      ensures Indexed(crc16, k) in rest
    {
      IndexedDecides(crc16, k, slot);
      PrefixIsBelow(Prefix(slot), Indexed(crc16, k));
    }
  }

  /** After the first entry of another slot none of this slot is left. */
  lemma NothingMore(crc16: Bytes -> nat, keys: set<Bytes>, slot: nat, p: Bytes, e: Bytes, rest: set<Bytes>)
    requires slot < CLUSTER_SLOTS && p == Prefix(slot) && |e| >= 2 && Leq(p, e) && (e[0] != p[0] || e[1] != p[1])
    requires forall f :: f in rest ==> Leq(e, f)
    ensures forall k :: k in InSlot(crc16, keys, slot) ==> Indexed(crc16, k) !in rest && Indexed(crc16, k) != e
  {
    forall k | k in InSlot(crc16, keys, slot)
      ensures Indexed(crc16, k) !in rest && Indexed(crc16, k) != e
    {
      var f := Indexed(crc16, k);
      IndexedDecides(crc16, k, slot);
      if Leq(e, f) {
        PrefixIsConvex(p, e, f);
      }
    }
  }

  /** A slot with keys has an entry, and the least entry from its prefix on exists. */
  lemma SlotHasEntry(crc16: Bytes -> nat, keys: set<Bytes>, slot: nat, rest: set<Bytes>) returns (f: Bytes)
    requires slot < CLUSTER_SLOTS && |InSlot(crc16, keys, slot)| != 0
    requires rest == set e | e in IndexOf(crc16, keys) && Leq(Prefix(slot), e)
    ensures f in rest && HasPrefix(f, slot)
    ensures exists e :: e in rest && forall f :: f in rest ==> Leq(e, f)
  {
    var k :| k in InSlot(crc16, keys, slot);
    f := Indexed(crc16, k);
    EntriesOfSlot(crc16, keys, slot, rest);
    IndexedDecides(crc16, k, slot);
    var e := LeastExists(rest);
  }

  lemma AllGone<V>(crc16: Bytes -> nat, before: map<Bytes, V>, after: map<Bytes, V>, gone: set<Bytes>, slot: nat)
    requires gone <= InSlot(crc16, before.Keys, slot) && after == before - gone
    requires |InSlot(crc16, after.Keys, slot)| == 0
    ensures gone == InSlot(crc16, before.Keys, slot)
  {
    assert InSlot(crc16, after.Keys, slot) == InSlot(crc16, before.Keys, slot) - gone;
    NoneLeft(InSlot(crc16, after.Keys, slot));
  }

  lemma NoneLeft(s: set<Bytes>)
    requires |s| == 0
    ensures s == {}
  {
  }

  lemma KeysAfterDelete<V>(dict: map<Bytes, V>, expires: map<Bytes, int>, key: Bytes)
    requires expires.Keys <= dict.Keys
    ensures var d := dict - {key};
            && (expires - {key}).Keys <= d.Keys && key !in d.Keys
            && if key in dict then dict.Keys == d.Keys + {key} && |dict| == |d| + 1 else d == dict
  {
    var d := dict - {key};
    if key in dict {
      assert dict.Keys == d.Keys + {key};
      assert |dict.Keys| == |dict| && |d.Keys| == |d|;
    } else {
      assert d == dict;
    }
  }

  // ----- the walk over the keys of a slot -----

  /** The list holds the set, each element once. */
  ghost predicate Listed(keys: seq<Bytes>, seen: set<Bytes>) {
    && |seen| == |keys| && (forall i :: 0 <= i < |keys| ==> keys[i] in seen)
    && (forall i, j :: 0 <= i < j < |keys| ==> keys[i] != keys[j])
  }

  /** `seen` are the keys of the slot whose entries are no longer in `rest`. */
  ghost predicate Visited(crc16: Bytes -> nat, keys: set<Bytes>, slot: nat, seen: set<Bytes>, rest: set<Bytes>) {
    && seen <= InSlot(crc16, keys, slot)
    && (forall k :: k in InSlot(crc16, keys, slot) ==> (k in seen <==> Indexed(crc16, k) !in rest))
  }

  lemma EntryKey(crc16: Bytes -> nat, keys: set<Bytes>, slot: nat, e: Bytes) returns (k: Bytes)
    requires slot < CLUSTER_SLOTS && e in IndexOf(crc16, keys)
    ensures k in keys && e == Indexed(crc16, k) && |e| >= 2 && e[2..] == k
    ensures e[0] == Prefix(slot)[0] && e[1] == Prefix(slot)[1] <==> k in InSlot(crc16, keys, slot)
  {
    k :| k in keys && Indexed(crc16, k) == e;
    IndexedDecides(crc16, k, slot);
  }

  lemma VisitOne(crc16: Bytes -> nat, keys: set<Bytes>, slot: nat, seen: set<Bytes>, rest: set<Bytes>, k: Bytes)
    requires Visited(crc16, keys, slot, seen, rest) && k in InSlot(crc16, keys, slot) && Indexed(crc16, k) in rest
    ensures k !in seen && Visited(crc16, keys, slot, seen + {k}, rest - {Indexed(crc16, k)})
  {
    hide Indexed;
    KeysDiffer(crc16, InSlot(crc16, keys, slot), k);
  }

  lemma VisitedAll(crc16: Bytes -> nat, keys: set<Bytes>, slot: nat, seen: set<Bytes>, rest: set<Bytes>)
    requires Visited(crc16, keys, slot, seen, rest)
    requires forall k :: k in InSlot(crc16, keys, slot) ==> Indexed(crc16, k) !in rest
    ensures seen == InSlot(crc16, keys, slot)
  {
  }

  lemma VisitedSome(crc16: Bytes -> nat, keys: set<Bytes>, slot: nat, seen: set<Bytes>, rest: set<Bytes>)
    requires Visited(crc16, keys, slot, seen, rest)
    ensures |seen| <= |InSlot(crc16, keys, slot)|
  {
    SubsetSize(seen, InSlot(crc16, keys, slot));
  }

  lemma ListedAreKeys(crc16: Bytes -> nat, keys: set<Bytes>, slot: nat, list: seq<Bytes>, seen: set<Bytes>)
    requires Listed(list, seen) && seen <= InSlot(crc16, keys, slot)
    ensures forall i :: 0 <= i < |list| ==> list[i] in keys && SlotOf(crc16, list[i]) == slot
  {
  }
}
