/** Hashes of the accumulator. */
module Hashes {
  // A 32-byte hash is either the all-zero value, which the accumulator reads as "nothing here", or a
  // digest. The compression function is left unspecified: `digest` is a constant about which nothing is
  // known, so every result holds for every choice of it. That it is free of collisions is a hypothesis,
  // stated by name where a result needs it.

  datatype Hash = Empty | Digest(bits: nat)

  /** The unspecified compression function behind `ParentHash`. */
  const digest: (Hash, Hash) -> nat

  /** The hash of an inner node.  It is never the all-zero value. */
  function ParentHash(l: Hash, r: Hash): (h: Hash)
  {
    Digest(digest(l, r))
  }

  /** Two different pairs of children never share a parent hash. */
  ghost predicate CollisionFree() {
    forall a, b, c, d {:trigger ParentHash(a, b), ParentHash(c, d)} ::
      ParentHash(a, b) == ParentHash(c, d) ==> a == c && b == d
  }

  /** A hash that commits to an element, and not to two children. */
  ghost predicate IsLeafHash(h: Hash) {
    h != Empty && forall a, b {:trigger ParentHash(a, b)} :: ParentHash(a, b) != h
  }

  /** What remains of two siblings: the survivor moves up, two survivors are
      hashed together, and nothing remains of nothing. */
  function Combine(l: Hash, r: Hash): Hash {
    if l == Empty then r
    else if r == Empty then l
    else ParentHash(l, r)
  }

  /** The hash of the parent of the node at `pos`, from its hash and that of its
      sibling: `pos` only decides which of the two is on the left. */
  function NextHash(pos: nat, hash: Hash, sibHash: Hash): Hash {
    if hash == Empty then sibHash
    else if sibHash == Empty then hash
    else if pos % 2 == 0 then ParentHash(hash, sibHash)
    else ParentHash(sibHash, hash)
  }
}

/** Results that may be missing. */
module Options {
  datatype Option<+T> = None | Some(value: T) {
    function GetOr(default: T): T {
      if Some? then value else default
    }
  }
}
