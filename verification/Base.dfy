/** Small definitions shared by several modules. */
module Base {

  /** The number of hash slots of a cluster. */
  const CLUSTER_SLOTS := 16384

  /** Node names; their order stands for the byte order of the 40-character node IDs. */
  type NodeId = nat

  datatype Option<+T> = None | Some(value: T)

  function Max(a: nat, b: nat): (m: nat)
    ensures a <= m && b <= m && (m == a || m == b)
  {
    if a < b then b else a
  }

  function Min(a: nat, b: nat): (m: nat)
    ensures m <= a && m <= b && (m == a || m == b)
  {
    if a < b then a else b
  }

  /** Two parts that together outnumber the whole have a member in common. */
  lemma CrowdsMeet<T>(a: set<T>, b: set<T>, whole: set<T>)
    requires a <= whole && b <= whole && |a| + |b| > |whole|
    ensures a * b != {}
  {
    SubsetSize(a + b, whole);
    assert |a + b| + |a * b| == |a| + |b|;
  }

  lemma {:induction false} SubsetSize<T>(a: set<T>, b: set<T>)
    requires a <= b
    ensures |a| <= |b|
  {
    assert b == a + (b - a);
  }
}
