/** Hashes of two digests. */
module Hashing {
  type Digest = nat
  type Combine = (Digest, Digest) -> Digest

  ghost predicate Injective(hash: Combine) {
    forall a, b, c, d :: hash(a, b) == hash(c, d) ==> a == c && b == d
  }
}
