/** The slot table of one cluster node: who serves each hash slot, kept twice (the slots array and one
    bitmap and counter per node), and changed by every path that moves slots. */
module ClusterSlots {
  import opened Base

  type Owners = s: seq<Option<NodeId>> | |s| == CLUSTER_SLOTS witness seq(CLUSTER_SLOTS, _ => None)

  /** The slots a node owns according to the slots array. */
  ghost function Owned(owner: Owners, n: NodeId): set<nat> {
    set j | 0 <= j < CLUSTER_SLOTS && owner[j] == Some(n)
  }

  /** The rebinding rule of clusterUpdateSlotsConfigWith for one slot. */
  function Rebind(o: Option<NodeId>, j: nat, sender: NodeId, senderEpoch: nat, claimed: set<nat>,
                  importing: set<nat>, epochs: map<NodeId, nat>): Option<NodeId>
  {
    if j in claimed && o != Some(sender) && j !in importing
       && (o.None? || o.value !in epochs || epochs[o.value] < senderEpoch)
    then Some(sender) else o
  }

  /** The slot has a known owner whose config epoch is no less than `epoch`. */
  predicate HeldUnder(o: Option<NodeId>, epochs: map<NodeId, nat>, epoch: nat) {
    o.Some? && o.value in epochs && epochs[o.value] >= epoch
  }

  lemma RebindExactly(o: Option<NodeId>, j: nat, sender: NodeId, senderEpoch: nat, claimed: set<nat>, importing: set<nat>,
                      epochs: map<NodeId, nat>)
    ensures Rebind(o, j, sender, senderEpoch, claimed, importing, epochs)
            == if j in claimed && j !in importing && !HeldUnder(o, epochs, senderEpoch) then Some(sender) else o
  {
  }

  ghost predicate Agrees(owner: Owners, bitmap: map<NodeId, set<nat>>, numslots: map<NodeId, int>, n: NodeId) {
    && n in bitmap && n in numslots
    && bitmap[n] == Owned(owner, n)
    && numslots[n] == |bitmap[n]|
  }

  lemma OwnedAfterUpdate(owner: Owners, slot: nat, o: Option<NodeId>, n: NodeId)
    requires slot < CLUSTER_SLOTS
    ensures Owned(owner[slot := o], n) == if o == Some(n) then Owned(owner, n) + {slot} else Owned(owner, n) - {slot}
  {
  }

  function Without(o: Option<NodeId>, n: NodeId): Option<NodeId> {
    if o == Some(n) then None else o
  }

  /** `n` has disappeared from the first `j` entries. */
  ghost predicate Cleared(before: Owners, after: Owners, n: NodeId, j: nat) {
    forall k :: 0 <= k < CLUSTER_SLOTS ==> after[k] == if k < j then Without(before[k], n) else before[k]
  }

  /** What clusterUpdateSlotsConfigWith does besides rebinding: nothing for a message about itself, becoming a replica of
      the sender, deleting the keys of lost slots, or reading the slot count of a master that is not there. */
  datatype Outcome = Discarded | Demoted | Deletes(dirty: seq<nat>) | NullMaster

  class SlotTable {
    var owner: Owners
    var bitmap: map<NodeId, set<nat>>
    var numslots: map<NodeId, int>
    var importingFrom: Owners
    var migratingTo: Owners

    /** slots[j] == n exactly when n's bitmap has bit j, and numslots is the bitmap's bit count. */
    ghost predicate Valid()
      reads this
    {
      && (forall n {:trigger Agrees(owner, bitmap, numslots, n)} :: n in bitmap ==> Agrees(owner, bitmap, numslots, n))
      && (forall j :: 0 <= j < CLUSTER_SLOTS && owner[j].Some? ==> owner[j].value in bitmap)
    }

    function Importing(): set<nat>
      reads this
    {
      set j: nat | j < CLUSTER_SLOTS && importingFrom[j].Some?
    }

    constructor ()
      ensures Valid() && bitmap == map[] && Importing() == {}
      ensures forall j :: 0 <= j < CLUSTER_SLOTS ==> owner[j] == None && migratingTo[j] == None
    {
      owner := seq(CLUSTER_SLOTS, _ => None);
      importingFrom, migratingTo := seq(CLUSTER_SLOTS, _ => None), seq(CLUSTER_SLOTS, _ => None);
      bitmap, numslots := map[], map[];
    }

    method AddNode(n: NodeId)
      requires Valid() && n !in bitmap
      modifies this`owner, this`bitmap, this`numslots
      ensures Valid() && owner == old(owner) && bitmap == old(bitmap)[n := {}]
    {
      assert forall j :: 0 <= j < CLUSTER_SLOTS ==> owner[j] != Some(n);
      bitmap, numslots := bitmap[n := {}], numslots[n := 0];
      forall k | k in bitmap
        ensures Agrees(owner, bitmap, numslots, k)
      {
        if k == n {
          assert Owned(owner, n) == {};
        } else {
          assert old(Agrees(owner, bitmap, numslots, k));
        }
      }
    }

    /** clusterAddSlot, with clusterNodeSetSlotBit. */
    method AddSlot(n: NodeId, slot: nat) returns (ok: bool)
      requires Valid() && n in bitmap && slot < CLUSTER_SLOTS
      modifies this`owner, this`bitmap, this`numslots
      ensures Valid() && bitmap.Keys == old(bitmap).Keys
      ensures ok <==> old(owner)[slot].None?
      ensures owner == if ok then old(owner)[slot := Some(n)] else old(owner)
    {
      if owner[slot].Some? {
        return false;
      }
      assert Agrees(owner, bitmap, numslots, n);
      var wasSet := slot in bitmap[n];
      bitmap := bitmap[n := bitmap[n] + {slot}];
      if !wasSet {
        numslots := numslots[n := numslots[n] + 1];
      }
      owner := owner[slot := Some(n)];
      forall k | k in bitmap
        ensures Agrees(owner, bitmap, numslots, k)
      {
        assert old(Agrees(owner, bitmap, numslots, k));
        OwnedAfterUpdate(old(owner), slot, Some(n), k);
      }
      return true;
    }

    /** clusterDelSlot: its assertion that the owner's bit was set never fires. */
    method DelSlot(slot: nat) returns (ok: bool)
      requires Valid() && slot < CLUSTER_SLOTS
      modifies this`owner, this`bitmap, this`numslots
      ensures Valid() && bitmap.Keys == old(bitmap).Keys
      ensures ok <==> old(owner)[slot].Some?
      ensures owner == old(owner)[slot := None]
    {
      if owner[slot].None? {
        assert owner == owner[slot := None];
        return false;
      }
      var n := owner[slot].value;
      assert Agrees(owner, bitmap, numslots, n);
      var bitWasSet := slot in bitmap[n];
      assert bitWasSet;
      bitmap := bitmap[n := bitmap[n] - {slot}];
      numslots := numslots[n := numslots[n] - 1];
      owner := owner[slot := None];
      forall k | k in bitmap
        ensures Agrees(owner, bitmap, numslots, k)
      {
        assert old(Agrees(owner, bitmap, numslots, k));
        OwnedAfterUpdate(old(owner), slot, None, k);
      }
      return true;
    }

    /** The pair of calls every rebinding path makes. */
    method MoveSlot(n: NodeId, slot: nat)
      requires Valid() && n in bitmap && slot < CLUSTER_SLOTS
      modifies this`owner, this`bitmap, this`numslots
      ensures Valid() && bitmap.Keys == old(bitmap).Keys
      ensures owner == old(owner)[slot := Some(n)]
    {
      var _ := DelSlot(slot);
      var ok := AddSlot(n, slot);
    }

    /** clusterDelNodeSlots: also the demotion of a master to slave, and CLUSTER FLUSHSLOTS. */
    method DelNodeSlots(n: NodeId) returns (deleted: nat)
      requires Valid() && n in bitmap
      modifies this`owner, this`bitmap, this`numslots
      ensures Valid() && bitmap.Keys == old(bitmap).Keys
      ensures forall j :: 0 <= j < CLUSTER_SLOTS ==> owner[j] == if old(owner)[j] == Some(n) then None else old(owner)[j]
      ensures bitmap[n] == {} && n in numslots && numslots[n] == 0
      ensures deleted == |Owned(old(owner), n)|
    {
      deleted := 0;
      for j := 0 to CLUSTER_SLOTS
        invariant Valid() && bitmap.Keys == old(bitmap).Keys
        invariant deleted + |Owned(owner, n)| == |Owned(old(owner), n)|
        invariant forall k :: 0 <= k < j ==> owner[k] == if old(owner)[k] == Some(n) then None else old(owner)[k]
        invariant forall k :: j <= k < CLUSTER_SLOTS ==> owner[k] == old(owner)[k]
      {
        assert Agrees(owner, bitmap, numslots, n);
        if j in bitmap[n] {
          OwnedAfterUpdate(owner, j, None, n);
          var _ := DelSlot(j);
          deleted := deleted + 1;
        }
      }
      assert Agrees(owner, bitmap, numslots, n);
      assert Owned(owner, n) == {};
    }

    /** The slot part of clusterDelNode: nothing refers to the node any more. */
    method DelNode(n: NodeId)
      requires Valid() && n in bitmap
      modifies this
      ensures Valid() && bitmap.Keys == old(bitmap).Keys - {n}
      ensures forall j :: 0 <= j < CLUSTER_SLOTS ==> owner[j] == Without(old(owner)[j], n)
      ensures forall j :: 0 <= j < CLUSTER_SLOTS ==> importingFrom[j] == Without(old(importingFrom)[j], n)
      ensures forall j :: 0 <= j < CLUSTER_SLOTS ==> migratingTo[j] == Without(old(migratingTo)[j], n)
    {
      for j := 0 to CLUSTER_SLOTS
        invariant Valid() && bitmap.Keys == old(bitmap).Keys
        invariant Cleared(old(owner), owner, n, j)
        invariant Cleared(old(importingFrom), importingFrom, n, j) && Cleared(old(migratingTo), migratingTo, n, j)
      {
        ClearSlot(n, j);
      }
      label L:
      bitmap, numslots := bitmap - {n}, numslots - {n};
      forall k | k in bitmap
        ensures Agrees(owner, bitmap, numslots, k)
      {
        assert old@L(Agrees(owner, bitmap, numslots, k));
      }
    }

    method ClearSlot(n: NodeId, j: nat)
      requires Valid() && j < CLUSTER_SLOTS
      modifies this
      ensures Valid() && bitmap.Keys == old(bitmap).Keys
      ensures owner == old(owner)[j := Without(old(owner)[j], n)]
      ensures importingFrom == old(importingFrom)[j := Without(old(importingFrom)[j], n)]
      ensures migratingTo == old(migratingTo)[j := Without(old(migratingTo)[j], n)]
    {
      if importingFrom[j] == Some(n) {
        importingFrom := importingFrom[j := None];
      }
      if migratingTo[j] == Some(n) {
        migratingTo := migratingTo[j := None];
      }
      if owner[j] == Some(n) {
        var _ := DelSlot(j);
      }
    }

    /** The slot loop of clusterFailoverReplaceYourMaster. */
    method ReplaceMaster(me: NodeId, oldMaster: NodeId)
      requires Valid() && me in bitmap && oldMaster in bitmap && me != oldMaster
      modifies this`owner, this`bitmap, this`numslots
      ensures Valid() && bitmap.Keys == old(bitmap).Keys
      ensures forall j :: 0 <= j < CLUSTER_SLOTS ==> owner[j] == if old(owner)[j] == Some(oldMaster) then Some(me) else old(owner)[j]
      ensures bitmap[oldMaster] == {}
    {
      for j := 0 to CLUSTER_SLOTS
        invariant Valid() && bitmap.Keys == old(bitmap).Keys
        invariant forall k :: 0 <= k < j ==> owner[k] == if old(owner)[k] == Some(oldMaster) then Some(me) else old(owner)[k]
        invariant forall k :: j <= k < CLUSTER_SLOTS ==> owner[k] == old(owner)[k]
      {
        assert Agrees(owner, bitmap, numslots, oldMaster);
        if j in bitmap[oldMaster] {
          MoveSlot(me, j);
        }
      }
      assert Agrees(owner, bitmap, numslots, oldMaster);
      assert Owned(owner, oldMaster) == {};
    }

    /** Some slot of `from` was rebound; a slave without a master counts the unassigned slots as its master's. */
    static ghost predicate Lost(before: Owners, after: Owners, from: Option<NodeId>, hi: nat) {
      exists j :: 0 <= j < CLUSTER_SLOTS && j < hi && before[j] == from && after[j] != before[j]
    }

    /** The loop of clusterUpdateSlotsConfigWith: whether the node's master lost a slot, and which slots of its own with
        keys this node lost. */
    method RebindSlots(me: NodeId, curMaster: Option<NodeId>, sender: NodeId, senderEpoch: nat, claimed: set<nat>,
                       epochs: map<NodeId, nat>, withKeys: set<nat>)
      returns (newMaster: bool, dirty: seq<nat>)
      requires Valid() && sender in bitmap && sender != me
      modifies this`owner, this`bitmap, this`numslots
      ensures Valid() && bitmap.Keys == old(bitmap).Keys
      ensures forall j :: 0 <= j < CLUSTER_SLOTS ==>
                owner[j] == Rebind(old(owner)[j], j, sender, senderEpoch, claimed, Importing(), epochs)
      ensures newMaster <==> Lost(old(owner), owner, curMaster, CLUSTER_SLOTS)
      ensures forall j :: j in dirty <==>
                0 <= j < CLUSTER_SLOTS && old(owner)[j] == Some(me) && owner[j] != old(owner)[j] && j in withKeys
    {
      hide Owned, Agrees;
      dirty, newMaster := [], false;
      for j := 0 to CLUSTER_SLOTS
        invariant Valid() && bitmap.Keys == old(bitmap).Keys
        invariant forall k :: 0 <= k < j ==>
                    owner[k] == Rebind(old(owner)[k], k, sender, senderEpoch, claimed, Importing(), epochs)
        invariant forall k :: j <= k < CLUSTER_SLOTS ==> owner[k] == old(owner)[k]
        invariant newMaster <==> Lost(old(owner), owner, curMaster, j)
        invariant forall k :: k in dirty <==> 0 <= k < j && old(owner)[k] == Some(me) && owner[k] != old(owner)[k] && k in withKeys
      {
        if j in claimed {
          if owner[j] == Some(sender) || importingFrom[j].Some? {
            continue;
          }
          if owner[j].None? || owner[j].value !in epochs || epochs[owner[j].value] < senderEpoch {
            if owner[j] == Some(me) && j in withKeys && sender != me {
              dirty := dirty + [j];
            }
            if owner[j] == curMaster {
              newMaster := true;
            }
            MoveSlot(sender, j);
          }
        }
      }
    }

    /** clusterUpdateSlotsConfigWith. `withKeys` are the slots that hold keys on this node, `curMaster` this node or its
        master, if it has one. Keys are deleted only when the node is not demoted. */
    method UpdateSlotsConfigWith(me: NodeId, curMaster: Option<NodeId>, sender: NodeId, senderEpoch: nat, claimed: set<nat>,
                                 epochs: map<NodeId, nat>, withKeys: set<nat>)
      returns (outcome: Outcome)
      requires Valid() && sender in bitmap && (curMaster.Some? ==> curMaster.value in bitmap)
      modifies this`owner, this`bitmap, this`numslots
      ensures Valid() && bitmap.Keys == old(bitmap).Keys
      ensures outcome.Discarded? <==> sender == me
      ensures sender == me ==> owner == old(owner)
      ensures sender != me ==> forall j :: 0 <= j < CLUSTER_SLOTS ==>
                owner[j] == Rebind(old(owner)[j], j, sender, senderEpoch, claimed, Importing(), epochs)
      // a slot that is being imported keeps its owner, whatever the sender claims; so does one under an epoch as great
      ensures forall j :: 0 <= j < CLUSTER_SLOTS && (importingFrom[j].Some? || j !in claimed) ==> owner[j] == old(owner)[j]
      ensures forall j :: 0 <= j < CLUSTER_SLOTS && HeldUnder(old(owner)[j], epochs, senderEpoch) ==> owner[j] == old(owner)[j]
      // the others go to the sender
      ensures sender != me ==> forall j :: 0 <= j < CLUSTER_SLOTS ==>
                (j in claimed && importingFrom[j].None? && !HeldUnder(old(owner)[j], epochs, senderEpoch) ==> owner[j] == Some(sender))
      ensures outcome.NullMaster? <==> sender != me && curMaster.None? && Lost(old(owner), owner, None, CLUSTER_SLOTS)
      ensures outcome.Demoted? <==> && sender != me && curMaster.Some? && Lost(old(owner), owner, curMaster, CLUSTER_SLOTS)
                                    && Owned(owner, curMaster.value) == {}
      ensures outcome.Deletes? ==> forall j :: j in outcome.dirty <==>
                0 <= j < CLUSTER_SLOTS && old(owner)[j] == Some(me) && owner[j] != old(owner)[j] && j in withKeys
    {
      if sender == me {
        return Discarded;
      }
      hide Rebind, HeldUnder, Lost;
      var newMaster, dirty := RebindSlots(me, curMaster, sender, senderEpoch, claimed, epochs, withKeys);
      forall j | 0 <= j < CLUSTER_SLOTS
        ensures importingFrom[j].Some? || j !in claimed || HeldUnder(old(owner)[j], epochs, senderEpoch)
                ==> owner[j] == old(owner)[j]
        ensures j in claimed && importingFrom[j].None? && !HeldUnder(old(owner)[j], epochs, senderEpoch)
                ==> owner[j] == Some(sender)
      {
        RebindExactly(old(owner)[j], j, sender, senderEpoch, claimed, Importing(), epochs);
      }
      if newMaster && curMaster.None? {
        return NullMaster;
      }
      if curMaster.Some? {
        assert Agrees(owner, bitmap, numslots, curMaster.value);
        if newMaster && numslots[curMaster.value] == 0 {
          return Demoted;
        }
      }
      return Deletes(dirty);
    }
  }

  // ---------------------------------------------------------------- the counters add up

  ghost function Total(numslots: map<NodeId, int>, nodes: set<NodeId>): int
    requires nodes <= numslots.Keys
    decreases |nodes|
  {
    if nodes == {} then 0 else
    var n :| n in nodes;
    numslots[n] + Total(numslots, nodes - {n})
  }

  ghost function OwnedBy(owner: Owners, nodes: set<NodeId>): set<nat> {
    set j | 0 <= j < CLUSTER_SLOTS && owner[j].Some? && owner[j].value in nodes
  }

  lemma {:induction false} TotalIsOwned(owner: Owners, bitmap: map<NodeId, set<nat>>, numslots: map<NodeId, int>, nodes: set<NodeId>)
    requires nodes <= bitmap.Keys && nodes <= numslots.Keys
    requires forall n {:trigger Agrees(owner, bitmap, numslots, n)} :: n in nodes ==> Agrees(owner, bitmap, numslots, n)
    ensures Total(numslots, nodes) == |OwnedBy(owner, nodes)|
    decreases |nodes|
  {
    if nodes == {} {
      assert OwnedBy(owner, nodes) == {};
    } else {
      var n :| n in nodes && Total(numslots, nodes) == numslots[n] + Total(numslots, nodes - {n});
      TotalIsOwned(owner, bitmap, numslots, nodes - {n});
      assert Agrees(owner, bitmap, numslots, n);
      assert OwnedBy(owner, nodes) == OwnedBy(owner, nodes - {n}) + Owned(owner, n);
      assert OwnedBy(owner, nodes - {n}) !! Owned(owner, n);
    }
  }

  /** In a valid table the slot counters of all nodes add up to the number of assigned slots. */
  lemma CountersAddUp(t: SlotTable)
    requires t.Valid()
    ensures t.bitmap.Keys <= t.numslots.Keys
    ensures Total(t.numslots, t.bitmap.Keys) == |set j | 0 <= j < CLUSTER_SLOTS && t.owner[j].Some?|
  {
    forall n | n in t.bitmap
      ensures n in t.numslots
    {
      assert Agrees(t.owner, t.bitmap, t.numslots, n);
    }
    TotalIsOwned(t.owner, t.bitmap, t.numslots, t.bitmap.Keys);
    assert OwnedBy(t.owner, t.bitmap.Keys) == set j | 0 <= j < CLUSTER_SLOTS && t.owner[j].Some?;
  }
}
