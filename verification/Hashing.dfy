/**
 Bytes, and SHA-256 as far as the record format relies on it.

 The digest is any function from byte strings to 32 bytes. No such function is injective, so
 nothing here assumes one: a theorem that needs collision resistance names the finite set of
 messages the two computations hash and asks that no two of those collide.
 */
module Hashing {

  type byte = x: int | 0 <= x < 256
  type bytes = seq<byte>

  const DIGEST_BYTES := 32

  type Hash = bytes -> bytes

  ghost predicate GivesDigests(sha: Hash) {
    forall x: bytes :: |sha(x)| == DIGEST_BYTES
  }

  ghost predicate CollisionFree(sha: Hash, messages: set<bytes>) {
    forall x, y :: x in messages && y in messages && sha(x) == sha(y) ==> x == y
  }
}
