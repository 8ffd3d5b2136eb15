/** What a node's slot table becomes when the masters' claims reach it in any order, any number of times. */
module SlotConvergence {
  import opened Base
  import opened ClusterSlots

  /** What a master announces: its config epoch and the slots it serves. */
  datatype Claim = Claim(epoch: nat, slots: set<nat>)

  type Claims = map<NodeId, Claim>

  /** The receiving node's table, and the config epochs it knows. No slot is being imported. */
  datatype View = View(owner: Owners, epochs: map<NodeId, nat>)

  function Rebound(v: View, sender: NodeId, c: Claim): Owners {
    seq(CLUSTER_SLOTS, j requires 0 <= j < CLUSTER_SLOTS => Rebind(v.owner[j], j, sender, c.epoch, c.slots, {}, v.epochs))
  }

  /** A heartbeat of `sender`: the header raises its known epoch, then the claimed slots are compared with
      the bitmap kept for the sender, and only on a difference the table is updated. */
  function Deliver(v: View, sender: NodeId, c: Claim): View {
    var epochs := v.epochs[sender := if sender in v.epochs then Max(v.epochs[sender], c.epoch) else c.epoch];
    var v1 := v.(epochs := epochs);
    if (forall j :: 0 <= j < CLUSTER_SLOTS ==> (v.owner[j] == Some(sender) <==> j in c.slots)) then v1
    else v1.(owner := Rebound(v1, sender, c))
  }

  function DeliverAll(v: View, claims: Claims, order: seq<NodeId>): View
    requires forall n :: n in order ==> n in claims
    decreases |order|
  {
    if order == [] then v
    else DeliverAll(Deliver(v, order[0], claims[order[0]]), claims, order[1..])
  }

  /** Slot `j` is owned by a claimant whose known epoch covers every claim on `j` delivered so far. */
  ghost predicate SlotOk(v: View, claims: Claims, delivered: set<NodeId>, j: nat)
    requires j < CLUSTER_SLOTS
  {
    && (v.owner[j].Some? ==> var o := v.owner[j].value; o in claims && j in claims[o].slots && o in v.epochs)
    && (forall m :: m in delivered && m in claims && j in claims[m].slots ==>
          v.owner[j].Some? && v.owner[j].value in v.epochs && claims[m].epoch <= v.epochs[v.owner[j].value])
  }

  /** The table already reflects the claims of `delivered`: every assigned slot is claimed by its owner, no
      known epoch is ahead of its master. A fresh table reflects no claim; a master's own table, its own. */
  ghost predicate Inv(v: View, claims: Claims, delivered: set<NodeId>) {
    && (forall j {:trigger SlotOk(v, claims, delivered, j)} :: 0 <= j < CLUSTER_SLOTS ==> SlotOk(v, claims, delivered, j))
    && (forall n :: n in v.epochs && n in claims ==> v.epochs[n] <= claims[n].epoch)
  }

  lemma DeliverKeepsInv(v: View, claims: Claims, delivered: set<NodeId>, sender: NodeId)
    requires Inv(v, claims, delivered) && sender in claims
    ensures Inv(Deliver(v, sender, claims[sender]), claims, delivered + {sender})
  {
    var v' := Deliver(v, sender, claims[sender]);
    forall j | 0 <= j < CLUSTER_SLOTS
      ensures SlotOk(v', claims, delivered + {sender}, j)
    {
      assert SlotOk(v, claims, delivered, j);
      SlotAfterDeliver(v, sender, claims[sender], j);
    }
  }

  /** The difference test only skips updates that would change nothing. */
  lemma SlotAfterDeliver(v: View, sender: NodeId, c: Claim, j: nat)
    requires j < CLUSTER_SLOTS
    ensures var v' := Deliver(v, sender, c);
            v'.owner[j] == Rebind(v.owner[j], j, sender, c.epoch, c.slots, {}, v'.epochs)
  {
  }

  lemma {:induction false} DeliverAllKeepsInv(v: View, claims: Claims, delivered: set<NodeId>, order: seq<NodeId>)
    requires Inv(v, claims, delivered) && forall n :: n in order ==> n in claims
    ensures Inv(DeliverAll(v, claims, order), claims, delivered + set n | n in order)
    decreases |order|
  {
    if order == [] {
      assert delivered + (set n | n in order) == delivered;
    } else {
      DeliverKeepsInv(v, claims, delivered, order[0]);
      DeliverAllKeepsInv(Deliver(v, order[0], claims[order[0]]), claims, delivered + {order[0]}, order[1..]);
      assert delivered + {order[0]} + (set n | n in order[1..]) == delivered + set n | n in order;
    }
  }

  /** `n` claims slot `j`, and nobody claims it with a greater epoch. */
  ghost predicate GreatestClaimant(claims: Claims, j: nat, n: NodeId) {
    n in claims && j in claims[n].slots
    && forall m :: m in claims && j in claims[m].slots ==> claims[m].epoch <= claims[n].epoch
  }

  ghost predicate Covers(known: set<NodeId>, order: seq<NodeId>, claims: Claims) {
    (forall n :: n in order ==> n in claims) && (forall n :: n in claims ==> n in known || n in order)
  }

  /** Once every claim has been delivered, in any order and any number of times, each slot is owned by a
      claimant of greatest epoch, and unclaimed slots are unassigned. */
  lemma OwnedByGreatestClaimant(v: View, claims: Claims, known: set<NodeId>, order: seq<NodeId>, j: nat)
    requires Inv(v, claims, known) && Covers(known, order, claims) && j < CLUSTER_SLOTS
    ensures var o := DeliverAll(v, claims, order).owner[j];
            if exists n :: n in claims && j in claims[n].slots then o.Some? && GreatestClaimant(claims, j, o.value) else o.None?
  {
    DeliverAllKeepsInv(v, claims, known, order);
    var w := DeliverAll(v, claims, order);
    assert SlotOk(w, claims, known + (set n | n in order), j);
  }

  /** No slot has two claimants of the same greatest epoch. */
  ghost predicate GreatestIsUnique(claims: Claims) {
    forall j: nat, a, b :: j < CLUSTER_SLOTS && GreatestClaimant(claims, j, a) && GreatestClaimant(claims, j, b) ==> a == b
  }

  /** Convergence: two nodes that received the same claims in different orders, each starting from a
      table that reflects its own claim, end with the same table. */
  lemma ClaimsConverge(v1: View, known1: set<NodeId>, order1: seq<NodeId>,
                       v2: View, known2: set<NodeId>, order2: seq<NodeId>, claims: Claims)
    requires Inv(v1, claims, known1) && Inv(v2, claims, known2) && GreatestIsUnique(claims)
    requires Covers(known1, order1, claims) && Covers(known2, order2, claims)
    ensures DeliverAll(v1, claims, order1).owner == DeliverAll(v2, claims, order2).owner
  {
    var w1, w2 := DeliverAll(v1, claims, order1), DeliverAll(v2, claims, order2);
    forall j | 0 <= j < CLUSTER_SLOTS
      ensures w1.owner[j] == w2.owner[j]
    {
      OwnedByGreatestClaimant(v1, claims, known1, order1, j);
      OwnedByGreatestClaimant(v2, claims, known2, order2, j);
    }
  }

  /** Masters with pairwise distinct config epochs, as collision resolution leaves them. */
  lemma DistinctEpochsSuffice(claims: Claims)
    requires forall a, b :: a in claims && b in claims && a != b ==> claims[a].epoch != claims[b].epoch
    ensures GreatestIsUnique(claims)
  {
  }

  // ---------------------------------------------------------------- the condition is exact

  function Empty(): View {
    View(seq(CLUSTER_SLOTS, _ => None), map[])
  }

  lemma GreatestStays(v: View, claims: Claims, sender: NodeId, j: nat, a: NodeId)
    requires j < CLUSTER_SLOTS && sender in claims && GreatestClaimant(claims, j, a)
    requires v.owner[j] == Some(a) && a in v.epochs && v.epochs[a] == claims[a].epoch
    ensures var v' := Deliver(v, sender, claims[sender]);
            v'.owner[j] == Some(a) && a in v'.epochs && v'.epochs[a] == claims[a].epoch
  {
    SlotAfterDeliver(v, sender, claims[sender], j);
  }

  lemma {:induction false} GreatestStaysForever(v: View, claims: Claims, order: seq<NodeId>, j: nat, a: NodeId)
    requires j < CLUSTER_SLOTS && (forall n :: n in order ==> n in claims) && GreatestClaimant(claims, j, a)
    requires v.owner[j] == Some(a) && a in v.epochs && v.epochs[a] == claims[a].epoch
    ensures DeliverAll(v, claims, order).owner[j] == Some(a)
    decreases |order|
  {
    if order != [] {
      GreatestStays(v, claims, order[0], j, a);
      GreatestStaysForever(Deliver(v, order[0], claims[order[0]]), claims, order[1..], j, a);
    }
  }

  /** A claimant of greatest epoch heard first keeps the slot whatever follows. */
  lemma FirstGreatestWins(claims: Claims, order: seq<NodeId>, j: nat)
    requires j < CLUSTER_SLOTS && order != [] && (forall n :: n in order ==> n in claims) && GreatestClaimant(claims, j, order[0])
    ensures DeliverAll(Empty(), claims, order).owner[j] == Some(order[0])
  {
    SlotAfterDeliver(Empty(), order[0], claims[order[0]], j);
    GreatestStaysForever(Deliver(Empty(), order[0], claims[order[0]]), claims, order[1..], j, order[0]);
  }

  ghost predicate OrderDoesNotMatter(claims: Claims) {
    forall o1: seq<NodeId>, o2: seq<NodeId> {:trigger DeliverAll(Empty(), claims, o1), DeliverAll(Empty(), claims, o2)} ::
      (forall n :: n in o1 <==> n in claims) && (forall n :: n in o2 <==> n in claims)
      ==> DeliverAll(Empty(), claims, o1).owner == DeliverAll(Empty(), claims, o2).owner
  }

  lemma {:induction false} SomeOrder(nodes: set<NodeId>) returns (order: seq<NodeId>)
    ensures forall n :: n in order <==> n in nodes
    decreases |nodes|
  {
    if nodes == {} {
      return [];
    }
    var x :| x in nodes;
    var rest := SomeOrder(nodes - {x});
    order := [x] + rest;
  }

  /** Starting from an empty table, delivery order is irrelevant exactly when no slot has two claimants
      tied for the greatest epoch. */
  lemma ConvergesExactlyWithoutTies(claims: Claims)
    ensures OrderDoesNotMatter(claims) <==> GreatestIsUnique(claims)
  {
    if GreatestIsUnique(claims) {
      forall o1: seq<NodeId>, o2: seq<NodeId> | (forall n :: n in o1 <==> n in claims) && (forall n :: n in o2 <==> n in claims)
        ensures DeliverAll(Empty(), claims, o1).owner == DeliverAll(Empty(), claims, o2).owner
      {
        forall j | 0 <= j < CLUSTER_SLOTS
          ensures SlotOk(Empty(), claims, {}, j)
        {
        }
        ClaimsConverge(Empty(), {}, o1, Empty(), {}, o2, claims);
      }
    }
    if OrderDoesNotMatter(claims) {
      forall j: nat, a, b | j < CLUSTER_SLOTS && GreatestClaimant(claims, j, a) && GreatestClaimant(claims, j, b)
        ensures a == b
      {
        TieBreaksByOrder(claims, j, a, b);
      }
    }
  }

  lemma GreatestIsClaimant(claims: Claims, j: nat, a: NodeId)
    requires j < CLUSTER_SLOTS && GreatestClaimant(claims, j, a)
    ensures a in claims
  {
  }

  lemma TieBreaksByOrder(claims: Claims, j: nat, a: NodeId, b: NodeId)
    requires j < CLUSTER_SLOTS && GreatestClaimant(claims, j, a) && GreatestClaimant(claims, j, b)
    requires OrderDoesNotMatter(claims)
    ensures a == b
  {
    hide GreatestClaimant, DeliverAll;
    GreatestIsClaimant(claims, j, a);
    GreatestIsClaimant(claims, j, b);
    var order := SomeOrder(claims.Keys);
    var o1, o2 := [a] + order, [b] + order;
    assert (forall n :: n in o1 <==> n in claims) && (forall n :: n in o2 <==> n in claims);
    FirstGreatestWins(claims, o1, j);
    FirstGreatestWins(claims, o2, j);
    assert DeliverAll(Empty(), claims, o1).owner == DeliverAll(Empty(), claims, o2).owner;
  }
}
