/**
 The bottom-up inclusion proof verifier, `reconstruct_root` of scripts/testimony_validate.py, and
 how it refines the recursion of section 2.1.3.1 of RFC 9162.
 */
module InclusionProof {
  import opened Wrappers
  import opened Hashing
  import opened MerkleTree

  datatype ProofError = IndexOutsideTree | PathTooLong | PathTooShort

  // ---------------------------------------------------------------- the bottom-up walk

  /** Shift both registers right until `fn` is odd or zero. */
  function Strip(fn: int, sn: int): (int, int)
    decreases if fn < 0 then -fn else fn
  {
    if fn % 2 == 0 && fn != 0 then Strip(fn / 2, sn / 2) else (fn, sn)
  }

  predicate OnRight(fn: int, sn: int) {
    fn % 2 == 1 || fn == sn
  }

  /** The registers after one path element. */
  function Shift(fn: int, sn: int): (int, int) {
    var (f, s) := if OnRight(fn, sn) then Strip(fn, sn) else (fn, sn);
    (f / 2, s / 2)
  }

  function Combine(sha: Hash, fn: int, sn: int, r: bytes, p: bytes): bytes {
    if OnRight(fn, sn) then NodeHash(sha, p, r) else NodeHash(sha, r, p)
  }

  function Walk(sha: Hash, fn: int, sn: int, r: bytes, path: seq<bytes>): Result<bytes, ProofError>
    decreases |path|
  {
    if path == [] then
      if sn != 0 then Err(PathTooShort) else Ok(r)
    else if sn == 0 then
      Err(PathTooLong)
    else
      var (f, s) := Shift(fn, sn);
      Walk(sha, f, s, Combine(sha, fn, sn, r, path[0]), path[1..])
  }

  function Reconstruct(sha: Hash, leaf: bytes, index: int, size: int, path: seq<bytes>): Result<bytes, ProofError> {
    if index >= size then Err(IndexOutsideTree)
    else Walk(sha, index, size - 1, LeafHash(sha, leaf), path)
  }

  /**
   The verifier itself. `index` and `size` come out of a decoded receipt, so they are any integers;
   the shifts are arithmetic, as they are in the source. The inner loop's `fn != 0` test is an
   invariant: it never ends the loop.
   */
  method ReconstructRoot(sha: Hash, leaf: bytes, index: int, size: int, path: seq<bytes>)
      returns (root: Result<bytes, ProofError>)
    ensures root == Reconstruct(sha, leaf, index, size, path)
  {
    if index >= size {
      return Err(IndexOutsideTree);
    }
    var fn, sn, r := index, size - 1, LeafHash(sha, leaf);
    for i := 0 to |path|
      invariant Walk(sha, fn, sn, r, path[i..]) == Reconstruct(sha, leaf, index, size, path)
    {
      if sn == 0 {
        return Err(PathTooLong);
      }
      var p := path[i];
      assert path[i..][0] == p && path[i..][1..] == path[i + 1..];
      ghost var next := Shift(fn, sn);
      if fn % 2 == 1 || fn == sn {
        r := NodeHash(sha, p, r);
        ghost var stripped := Strip(fn, sn);
        while fn % 2 == 0 && fn != 0
          invariant fn != 0
          invariant Strip(fn, sn) == stripped
          decreases if fn < 0 then -fn else fn
        {
          fn := fn / 2;
          sn := sn / 2;
        }
      } else {
        r := NodeHash(sha, r, p);
      }
      fn := fn / 2;
      sn := sn / 2;
      assert (fn, sn) == next;
    }
    if sn != 0 {
      return Err(PathTooShort);
    }
    return Ok(r);
  }

  // ---------------------------------------------------------------- the same root, from the top

  /** The recursion of section 2.1.3.1 read backwards: the last path element is the top sibling. */
  function FromTop(sha: Hash, m: nat, n: nat, r: bytes, path: seq<bytes>): Option<bytes>
    requires m < n
    decreases n
  {
    if n == 1 then
      if path == [] then Some(r) else None
    else if path == [] then
      None
    else
      var k, top, below := SplitPoint(n), path[|path| - 1], path[..|path| - 1];
      if m < k then
        LeftOf(sha, FromTop(sha, m, k, r, below), top)
      else
        RightOf(sha, top, FromTop(sha, m - k, n - k, r, below))
  }

  function LeftOf(sha: Hash, o: Option<bytes>, top: bytes): Option<bytes> {
    if o.Some? then Some(NodeHash(sha, o.value, top)) else None
  }

  function RightOf(sha: Hash, top: bytes, o: Option<bytes>): Option<bytes> {
    if o.Some? then Some(NodeHash(sha, top, o.value)) else None
  }

  function Root(w: Result<bytes, ProofError>): Option<bytes> {
    if w.Ok? then Some(w.value) else None
  }

  lemma WalkStep(sha: Hash, fn: int, sn: int, r: bytes, path: seq<bytes>)
    requires path != []
    ensures Walk(sha, fn, sn, r, path)
         == if sn == 0 then Err(PathTooLong)
            else Walk(sha, Shift(fn, sn).0, Shift(fn, sn).1, Combine(sha, fn, sn, r, path[0]), path[1..])
  {
  }

  lemma WalkEnd(sha: Hash, fn: int, sn: int, r: bytes, path: seq<bytes>)
    requires path == [] || sn == 0
    ensures Walk(sha, fn, sn, r, path)
         == if path != [] then Err(PathTooLong) else if sn != 0 then Err(PathTooShort) else Ok(r)
  {
  }

  /** Below a perfect left subtree of `K` leaves the walk never notices the rest of the tree. */
  lemma {:induction false} WalkInLeftSubtree(sha: Hash, fn: nat, K: nat, sn: nat, r: bytes, path: seq<bytes>, top: bytes)
    requires PowerOfTwo(K) && fn < K <= sn < 2 * K
    ensures Root(Walk(sha, fn, sn, r, path + [top]))
         == LeftOf(sha, Root(Walk(sha, fn, K - 1, r, path)), top)
    decreases K
  {
    var whole := path + [top];
    assert whole != [];
    if K == 1 {
      assert Walk(sha, fn, sn, r, whole) == Walk(sha, 0, 0, NodeHash(sha, r, whole[0]), whole[1..]);
      if path == [] {
        assert whole[1..] == [];
      }
    } else if path == [] {
      assert whole[1..] == [];
    } else {
      assert whole[0] == path[0] && whole[1..] == path[1..] + [top];
      WalkInLeftSubtree(sha, fn / 2, K / 2, sn / 2, Combine(sha, fn, sn, r, path[0]), path[1..], top);
    }
  }

  lemma {:induction false} StripBesideAPower(f: nat, s: nat, K: nat) returns (P: nat)
    requires PowerOfTwo(K) && 0 < f <= s < K
    ensures PowerOfTwo(P) && 1 < P <= K
    ensures var (a, b) := Strip(f, s); 0 < a <= b < P && a % 2 == 1 && Strip(K + f, K + s) == (P + a, P + b)
    decreases f
  {
    if f % 2 == 0 {
      P := StripBesideAPower(f / 2, s / 2, K / 2);
      assert (K + f) / 2 == K / 2 + f / 2 && (K + s) / 2 == K / 2 + s / 2;
    } else {
      P := K;
    }
  }

  lemma {:induction false} StripPower(K: nat)
    requires PowerOfTwo(K)
    ensures Strip(K, K) == (1, 1)
    decreases K
  {
    if K > 1 {
      StripPower(K / 2);
    }
  }

  lemma ShiftPower(K: nat)
    requires PowerOfTwo(K)
    ensures Shift(K, K) == (0, 0)
  {
    StripPower(K);
  }

  /** One step inside the right subtree moves the whole tree's registers the same way. */
  lemma ShiftBesideAPower(fn: nat, sn: nat, K: nat) returns (K': nat)
    requires PowerOfTwo(K) && fn <= sn < K && sn != 0
    ensures OnRight(fn, sn) == OnRight(K + fn, K + sn)
    ensures PowerOfTwo(K') && K' < K
    ensures var (f, s) := Shift(fn, sn); 0 <= f <= s < K' && Shift(K + fn, K + sn) == (K' + f, K' + s)
  {
    if OnRight(fn, sn) {
      var P := StripBesideAPower(fn, sn, K);
      hide Strip;
      K' := P / 2;
    } else {
      K' := K / 2;
    }
  }

  /** Beside a perfect left subtree of `K` leaves the walk is the right subtree's, then one node. */
  lemma {:induction false} WalkInRightSubtree(sha: Hash, K: nat, fn: nat, sn: nat, r: bytes, path: seq<bytes>, top: bytes)
    requires PowerOfTwo(K) && fn <= sn < K
    ensures Root(Walk(sha, K + fn, K + sn, r, path + [top]))
         == RightOf(sha, top, Root(Walk(sha, fn, sn, r, path)))
    decreases |path|
  {
    hide Walk, Strip, Shift, NodeHash, PowerOfTwo;
    var whole := path + [top];
    WalkStep(sha, K + fn, K + sn, r, whole);
    if sn == 0 {
      ShiftPower(K);
      WalkEnd(sha, 0, 0, NodeHash(sha, whole[0], r), whole[1..]);
      WalkEnd(sha, fn, sn, r, path);
    } else {
      var K' := ShiftBesideAPower(fn, sn, K);
      var (f, s) := Shift(fn, sn);
      if path == [] {
        WalkEnd(sha, K' + f, K' + s, Combine(sha, K + fn, K + sn, r, top), whole[1..]);
        WalkEnd(sha, fn, sn, r, path);
      } else {
        WalkStep(sha, fn, sn, r, path);
        assert whole[1..] == path[1..] + [top];
        WalkInRightSubtree(sha, K', f, s, Combine(sha, fn, sn, r, path[0]), path[1..], top);
      }
    }
  }

  /** The bottom-up loop and the top-down recursion reach the same root, or both reach none. */
  lemma {:induction false} WalkIsFromTop(sha: Hash, m: nat, n: nat, r: bytes, path: seq<bytes>)
    requires m < n
    ensures Root(Walk(sha, m, n - 1, r, path)) == FromTop(sha, m, n, r, path)
    decreases n
  {
    hide SplitPoint, PowerOfTwo, NodeHash, FromTop, Walk;
    if n == 1 || path == [] {
      WalkIsFromTopAtEnd(sha, m, n, r, path);
    } else {
      var k, top, below := SplitPoint(n), path[|path| - 1], path[..|path| - 1];
      assert path == below + [top];
      FromTopStep(sha, m, n, r, below, top);
      if m < k {
        WalkInLeftSubtree(sha, m, k, n - 1, r, below, top);
        WalkIsFromTop(sha, m, k, r, below);
      } else {
        WalkInRightSubtree(sha, k, m - k, n - 1 - k, r, below, top);
        WalkIsFromTop(sha, m - k, n - k, r, below);
      }
    }
  }

  lemma WalkIsFromTopAtEnd(sha: Hash, m: nat, n: nat, r: bytes, path: seq<bytes>)
    requires m < n && (n == 1 || path == [])
    ensures Root(Walk(sha, m, n - 1, r, path)) == FromTop(sha, m, n, r, path)
  {
  }

  // ---------------------------------------------------------------- main results

  /** Completeness: the audit path of any leaf of any tree reconstructs that tree's root. */
  lemma {:induction false} Complete(sha: Hash, m: nat, D: seq<bytes>)
    requires m < |D|
    ensures Reconstruct(sha, D[m], m, |D|, AuditPath(sha, m, D)) == Ok(TreeHash(sha, D))
  {
    FromTopOfAuditPath(sha, m, D);
    WalkIsFromTop(sha, m, |D|, LeafHash(sha, D[m]), AuditPath(sha, m, D));
  }

  lemma FromTopStep(sha: Hash, m: nat, n: nat, r: bytes, below: seq<bytes>, top: bytes)
    requires m < n && n > 1
    ensures FromTop(sha, m, n, r, below + [top])
         == var k := SplitPoint(n);
            if m < k then LeftOf(sha, FromTop(sha, m, k, r, below), top)
            else RightOf(sha, top, FromTop(sha, m - k, n - k, r, below))
  {
    var path := below + [top];
    assert path[|path| - 1] == top && path[..|path| - 1] == below;
  }

  lemma AuditPathStep(sha: Hash, m: nat, D: seq<bytes>)
    requires m < |D| && |D| > 1
    ensures var k := SplitPoint(|D|);
            && TreeHash(sha, D) == NodeHash(sha, TreeHash(sha, D[..k]), TreeHash(sha, D[k..]))
            && AuditPath(sha, m, D) == if m < k then AuditPath(sha, m, D[..k]) + [TreeHash(sha, D[k..])]
                                       else AuditPath(sha, m - k, D[k..]) + [TreeHash(sha, D[..k])]
  {
  }

  lemma {:induction false} FromTopOfAuditPath(sha: Hash, m: nat, D: seq<bytes>)
    requires m < |D|
    ensures FromTop(sha, m, |D|, LeafHash(sha, D[m]), AuditPath(sha, m, D)) == Some(TreeHash(sha, D))
    decreases |D|
  {
    hide SplitPoint, PowerOfTwo, LeafHash, NodeHash, FromTop, AuditPath, TreeHash;
    if |D| == 1 {
      FromTopOfLeaf(sha, D);
    } else {
      var k, leaf := SplitPoint(|D|), LeafHash(sha, D[m]);
      var L, R := D[..k], D[k..];
      AuditPathStep(sha, m, D);
      if m < k {
        FromTopOfAuditPath(sha, m, L);
        FromTopStep(sha, m, |D|, leaf, AuditPath(sha, m, L), TreeHash(sha, R));
      } else {
        FromTopOfAuditPath(sha, m - k, R);
        FromTopStep(sha, m, |D|, leaf, AuditPath(sha, m - k, R), TreeHash(sha, L));
      }
    }
  }

  lemma FromTopOfLeaf(sha: Hash, D: seq<bytes>)
    requires |D| == 1
    ensures FromTop(sha, 0, 1, LeafHash(sha, D[0]), AuditPath(sha, 0, D)) == Some(TreeHash(sha, D))
  {
  }

  /** The number of binary digits of `x`. */
  function BitLength(x: nat): nat {
    if x == 0 then 0 else 1 + BitLength(x / 2)
  }

  /** How many path elements a walk over registers `fn`, `sn` consumes before `sn` reaches zero. */
  function Steps(fn: int, sn: nat): nat
    requires fn <= sn
    decreases sn
  {
    if sn == 0 then 0
    else
      ShiftShrinks(fn, sn);
      1 + Steps(Shift(fn, sn).0, Shift(fn, sn).1)
  }

  lemma {:induction false} StripShrinks(fn: int, sn: nat)
    requires fn <= sn
    ensures Strip(fn, sn).0 <= Strip(fn, sn).1 && 0 <= Strip(fn, sn).1 <= sn
    decreases if fn < 0 then -fn else fn
  {
    if fn % 2 == 0 && fn != 0 {
      StripShrinks(fn / 2, sn / 2);
    }
  }

  lemma ShiftShrinks(fn: int, sn: nat)
    requires fn <= sn && sn > 0
    ensures Shift(fn, sn).0 <= Shift(fn, sn).1 && 0 <= Shift(fn, sn).1 < sn
  {
    StripShrinks(fn, sn);
  }

  /** Only the number of path elements decides between a root and the two refusals. */
  lemma {:induction false} WalkOutcome(sha: Hash, fn: int, sn: nat, r: bytes, path: seq<bytes>)
    requires fn <= sn
    ensures var w := Walk(sha, fn, sn, r, path);
            && (w.Ok? <==> |path| == Steps(fn, sn))
            && (w == Err(PathTooLong) <==> |path| > Steps(fn, sn))
            && (w == Err(PathTooShort) <==> |path| < Steps(fn, sn))
    decreases |path|
  {
    if sn != 0 && path != [] {
      ShiftShrinks(fn, sn);
      var (f, s) := Shift(fn, sn);
      WalkOutcome(sha, f, s, Combine(sha, fn, sn, r, path[0]), path[1..]);
    }
  }

  lemma {:induction false} FromTopNeedsDepth(sha: Hash, m: nat, n: nat, r: bytes, path: seq<bytes>)
    requires m < n
    ensures FromTop(sha, m, n, r, path).Some? <==> |path| == Depth(m, n)
    decreases n
  {
    if n > 1 && path != [] {
      var k, below := SplitPoint(n), path[..|path| - 1];
      if m < k {
        FromTopNeedsDepth(sha, m, k, r, below);
      } else {
        FromTopNeedsDepth(sha, m - k, n - k, r, below);
      }
    }
  }

  lemma StepsIsDepth(m: nat, n: nat)
    requires m < n
    ensures Steps(m, n - 1) == Depth(m, n)
  {
    var sha: Hash := (x: bytes) => [];
    var path := seq(Steps(m, n - 1), i => []);
    WalkOutcome(sha, m, n - 1, [], path);
    WalkIsFromTop(sha, m, n, [], path);
    FromTopNeedsDepth(sha, m, n, [], path);
  }

  /** A negative index is on the right of nothing: the walk sees one bit of `sn` per element. */
  lemma {:induction false} StepsBelowZero(fn: int, sn: nat)
    requires fn < 0
    ensures Steps(fn, sn) == BitLength(sn)
    decreases sn
  {
    if sn > 0 {
      if fn % 2 == 1 {
        assert Strip(fn, sn) == (fn, sn);
      }
      assert Shift(fn, sn) == (fn / 2, sn / 2);
      StepsBelowZero(fn / 2, sn / 2);
    }
  }

  /**
   Exactly when a root comes back, and which refusal comes back otherwise, for every integer index
   and size. Inside the tree the one accepted length is the leaf's depth. A negative index, which
   no RFC 9162 proof carries, is not refused as outside the tree: it is walked like any other.
   */
  lemma Outcome(sha: Hash, leaf: bytes, m: int, n: int, path: seq<bytes>)
    ensures var w := Reconstruct(sha, leaf, m, n, path);
            && (w == Err(IndexOutsideTree) <==> m >= n)
            && (0 <= m < n ==> (w.Ok? <==> |path| == Depth(m, n)))
            && (0 <= m < n ==> (w == Err(PathTooLong) <==> |path| > Depth(m, n)))
            && (m < 0 < n ==> (w.Ok? <==> |path| == BitLength(n - 1)))
            && (m < 0 < n ==> (w == Err(PathTooLong) <==> |path| > BitLength(n - 1)))
            && (m < n <= 0 ==> w == Err(PathTooShort))
  {
    if m < n {
      if n > 0 {
        WalkOutcome(sha, m, n - 1, LeafHash(sha, leaf), path);
        if m >= 0 {
          StepsIsDepth(m, n);
        } else {
          StepsBelowZero(m, n - 1);
        }
      } else {
        WalkBelowZero(sha, m, n - 1, LeafHash(sha, leaf), path);
      }
    }
  }

  lemma {:induction false} StripStaysBelowZero(fn: int, sn: int)
    requires fn <= sn < 0
    ensures Strip(fn, sn).0 <= Strip(fn, sn).1 < 0
    decreases -fn
  {
    if fn % 2 == 0 {
      StripStaysBelowZero(fn / 2, sn / 2);
    }
  }

  lemma {:induction false} WalkBelowZero(sha: Hash, fn: int, sn: int, r: bytes, path: seq<bytes>)
    requires fn <= sn < 0
    ensures Walk(sha, fn, sn, r, path) == Err(PathTooShort)
    decreases |path|
  {
    if path != [] {
      StripStaysBelowZero(fn, sn);
      var (f, s) := Shift(fn, sn);
      WalkBelowZero(sha, f, s, Combine(sha, fn, sn, r, path[0]), path[1..]);
    }
  }

  /** Every message hashed when a path of the right length is read from the top. */
  ghost function PathMessages(sha: Hash, leaf: bytes, m: nat, n: nat, path: seq<bytes>): set<bytes>
    requires m < n
    decreases n
  {
    if n == 1 then {[0] + leaf}
    else if path == [] then {}
    else
      var k, top, below := SplitPoint(n), path[|path| - 1], path[..|path| - 1];
      if m < k then
        var x := FromTop(sha, m, k, LeafHash(sha, leaf), below);
        PathMessages(sha, leaf, m, k, below) + if x.Some? then {[1] + x.value + top} else {}
      else
        var x := FromTop(sha, m - k, n - k, LeafHash(sha, leaf), below);
        PathMessages(sha, leaf, m - k, n - k, below) + if x.Some? then {[1] + top + x.value} else {}
  }

  lemma {:induction false} FromTopIsADigest(sha: Hash, leaf: bytes, m: nat, n: nat, path: seq<bytes>)
    requires GivesDigests(sha) && m < n
    ensures var x := FromTop(sha, m, n, LeafHash(sha, leaf), path); x.Some? ==> |x.value| == DIGEST_BYTES
    decreases n
  {
  }

  lemma NodeMessagesMatch(a: bytes, b: bytes, c: bytes, d: bytes)
    requires [1] + a + b == [1] + c + d
    requires (|a| == |c| || |b| == |d|)
    ensures a == c && b == d
  {
    assert ([1] + a + b)[1..] == a + b && ([1] + c + d)[1..] == c + d;
    assert |a| == |c|;
    assert (a + b)[..|a|] == a && (c + d)[..|a|] == c;
    assert (a + b)[|a|..] == b && (c + d)[|a|..] == d;
  }

  lemma SoundAtLeaf(sha: Hash, leaf: bytes, D: seq<bytes>, path: seq<bytes>)
    requires |D| == 1
    requires FromTop(sha, 0, 1, LeafHash(sha, leaf), path) == Some(TreeHash(sha, D))
    requires CollisionFree(sha, TreeMessages(sha, D) + PathMessages(sha, leaf, 0, 1, path))
    ensures leaf == D[0] && path == AuditPath(sha, 0, D)
  {
    assert ([0] + leaf)[1..] == leaf && ([0] + D[0])[1..] == D[0];
    assert [0] + leaf == [0] + D[0];
  }

  lemma {:induction false} FromTopIsSound(sha: Hash, leaf: bytes, m: nat, D: seq<bytes>, path: seq<bytes>)
    requires GivesDigests(sha) && m < |D|
    requires FromTop(sha, m, |D|, LeafHash(sha, leaf), path) == Some(TreeHash(sha, D))
    requires CollisionFree(sha, TreeMessages(sha, D) + PathMessages(sha, leaf, m, |D|, path))
    ensures leaf == D[m] && path == AuditPath(sha, m, D)
    decreases |D|
  {
    hide FromTop, TreeHash, TreeMessages, PathMessages, SplitPoint, LeafHash, NodeHash, AuditPath;
    if |D| == 1 {
      SoundAtLeaf(sha, leaf, D, path);
    } else {
      var k := SplitPoint(|D|);
      AuditPathStep(sha, m, D);
      if m < k {
        SoundOnLeft(sha, leaf, m, D, path);
        FromTopIsSound(sha, leaf, m, D[..k], path[..|path| - 1]);
      } else {
        SoundOnRight(sha, leaf, m, D, path);
        FromTopIsSound(sha, leaf, m - k, D[k..], path[..|path| - 1]);
      }
      assert path == path[..|path| - 1] + [path[|path| - 1]];
    }
  }

  lemma SoundOnLeft(sha: Hash, leaf: bytes, m: nat, D: seq<bytes>, path: seq<bytes>)
    requires GivesDigests(sha) && |D| > 1 && m < SplitPoint(|D|)
    requires FromTop(sha, m, |D|, LeafHash(sha, leaf), path) == Some(TreeHash(sha, D))
    requires CollisionFree(sha, TreeMessages(sha, D) + PathMessages(sha, leaf, m, |D|, path))
    ensures path != []
    ensures var k := SplitPoint(|D|); var below := path[..|path| - 1];
            && path[|path| - 1] == TreeHash(sha, D[k..])
            && FromTop(sha, m, k, LeafHash(sha, leaf), below) == Some(TreeHash(sha, D[..k]))
            && CollisionFree(sha, TreeMessages(sha, D[..k]) + PathMessages(sha, leaf, m, k, below))
  {
    var k, top, below := SplitPoint(|D|), path[|path| - 1], path[..|path| - 1];
    var L, R := D[..k], D[k..];
    var x := FromTop(sha, m, k, LeafHash(sha, leaf), below).value;
    FromTopIsADigest(sha, leaf, m, k, below);
    TreeHashIsADigest(sha, L);
    hide TreeHash, FromTop, LeafHash, SplitPoint;
    assert [1] + x + top == [1] + TreeHash(sha, L) + TreeHash(sha, R);
    NodeMessagesMatch(x, top, TreeHash(sha, L), TreeHash(sha, R));
  }

  lemma MessagesOnRight(sha: Hash, leaf: bytes, m: nat, D: seq<bytes>, path: seq<bytes>)
    requires |D| > 1 && SplitPoint(|D|) <= m < |D|
    requires FromTop(sha, m, |D|, LeafHash(sha, leaf), path).Some?
    ensures path != []
    ensures var k := SplitPoint(|D|);
            var below := path[..|path| - 1];
            var x := FromTop(sha, m - k, |D| - k, LeafHash(sha, leaf), below);
            && FromTop(sha, m, |D|, LeafHash(sha, leaf), path) == RightOf(sha, path[|path| - 1], x)
            && x.Some?
            && [1] + path[|path| - 1] + x.value in PathMessages(sha, leaf, m, |D|, path)
            && PathMessages(sha, leaf, m - k, |D| - k, below) <= PathMessages(sha, leaf, m, |D|, path)
            && [1] + TreeHash(sha, D[..k]) + TreeHash(sha, D[k..]) in TreeMessages(sha, D)
            && TreeMessages(sha, D[k..]) <= TreeMessages(sha, D)
  {
    hide SplitPoint, PowerOfTwo, LeafHash, NodeHash, TreeHash;
  }

  lemma SoundOnRight(sha: Hash, leaf: bytes, m: nat, D: seq<bytes>, path: seq<bytes>)
    requires GivesDigests(sha) && |D| > 1 && SplitPoint(|D|) <= m < |D|
    requires FromTop(sha, m, |D|, LeafHash(sha, leaf), path) == Some(TreeHash(sha, D))
    requires CollisionFree(sha, TreeMessages(sha, D) + PathMessages(sha, leaf, m, |D|, path))
    ensures path != []
    ensures var k := SplitPoint(|D|);
            var below := path[..|path| - 1];
            && path[|path| - 1] == TreeHash(sha, D[..k])
            && FromTop(sha, m - k, |D| - k, LeafHash(sha, leaf), below) == Some(TreeHash(sha, D[k..]))
            && CollisionFree(sha, TreeMessages(sha, D[k..]) + PathMessages(sha, leaf, m - k, |D| - k, below))
  {
    hide SplitPoint, PowerOfTwo, LeafHash, TreeHash, FromTop, PathMessages, TreeMessages, AuditPath;
    MessagesOnRight(sha, leaf, m, D, path);
    AuditPathStep(sha, m, D);
    var k, top, below := SplitPoint(|D|), path[|path| - 1], path[..|path| - 1];
    var x := FromTop(sha, m - k, |D| - k, LeafHash(sha, leaf), below).value;
    FromTopIsADigest(sha, leaf, m - k, |D| - k, below);
    TreeHashIsADigest(sha, D[k..]);
    assert [1] + top + x == [1] + TreeHash(sha, D[..k]) + TreeHash(sha, D[k..]);
    NodeMessagesMatch(top, x, TreeHash(sha, D[..k]), TreeHash(sha, D[k..]));
  }

  lemma TreeHashIsADigest(sha: Hash, D: seq<bytes>)
    requires GivesDigests(sha) && D != []
    ensures |TreeHash(sha, D)| == DIGEST_BYTES
  {
  }

  /**
   Soundness: whatever byte strings a path holds, of whatever lengths, if it carries `leaf` to the
   root of D then it is D's own leaf and D's own audit path, or two of the messages hashed collide.
   */
  lemma Sound(sha: Hash, leaf: bytes, m: nat, D: seq<bytes>, path: seq<bytes>)
    requires GivesDigests(sha) && D != []
    requires Reconstruct(sha, leaf, m, |D|, path) == Ok(TreeHash(sha, D))
    requires m < |D| ==> CollisionFree(sha, TreeMessages(sha, D) + PathMessages(sha, leaf, m, |D|, path))
    ensures m < |D| && leaf == D[m] && path == AuditPath(sha, m, D)
  {
    hide Walk, FromTop, TreeHash, TreeMessages, PathMessages;
    WalkIsFromTop(sha, m, |D|, LeafHash(sha, leaf), path);
    FromTopIsSound(sha, leaf, m, D, path);
  }
}
