/**
 The Merkle tree and audit path of sections 2.1.1 and 2.1.3.1 of RFC 9162.
 */
module MerkleTree {
  import opened Hashing

  function LeafHash(sha: Hash, d: bytes): bytes {
    sha([0] + d)
  }

  function NodeHash(sha: Hash, left: bytes, right: bytes): bytes {
    sha([1] + left + right)
  }

  predicate PowerOfTwo(k: int)
    decreases k
  {
    k == 1 || (k > 1 && k % 2 == 0 && PowerOfTwo(k / 2))
  }

  /** The largest power of two smaller than `n`. */
  function SplitPoint(n: nat): (k: nat)
    requires n > 1
    ensures PowerOfTwo(k) && k < n <= 2 * k
  {
    if n == 2 then 1 else 2 * SplitPoint((n + 1) / 2)
  }

  /** MTH(D), section 2.1.1. */
  function TreeHash(sha: Hash, D: seq<bytes>): bytes
    requires D != []
    decreases |D|
  {
    if |D| == 1 then
      LeafHash(sha, D[0])
    else
      var k := SplitPoint(|D|);
      NodeHash(sha, TreeHash(sha, D[..k]), TreeHash(sha, D[k..]))
  }

  /** PATH(m, D), section 2.1.3.1: the sibling nearest the leaf comes first. */
  function AuditPath(sha: Hash, m: nat, D: seq<bytes>): seq<bytes>
    requires m < |D|
    decreases |D|
  {
    if |D| == 1 then
      []
    else
      var k := SplitPoint(|D|);
      if m < k then
        AuditPath(sha, m, D[..k]) + [TreeHash(sha, D[k..])]
      else
        AuditPath(sha, m - k, D[k..]) + [TreeHash(sha, D[..k])]
  }

  /** How deep leaf `m` lies in a tree of `n` leaves. */
  function Depth(m: nat, n: nat): nat
    requires m < n
    decreases n
  {
    if n == 1 then 0
    else
      var k := SplitPoint(n);
      1 + if m < k then Depth(m, k) else Depth(m - k, n - k)
  }

  /** Every message hashed while computing MTH(D). */
  ghost function TreeMessages(sha: Hash, D: seq<bytes>): set<bytes>
    requires D != []
    decreases |D|
  {
    if |D| == 1 then
      {[0] + D[0]}
    else
      var k := SplitPoint(|D|);
      {[1] + TreeHash(sha, D[..k]) + TreeHash(sha, D[k..])}
      + TreeMessages(sha, D[..k]) + TreeMessages(sha, D[k..])
  }
}
