/** Proofs with the hashes of a forest. */
module Honest {
  import opened Hashes
  import opened Positions
  import opened Layouts
  import opened Shape
  import opened Forests
  import opened Calculation

  /** Nothing below a root is empty, except at the positions in `d`. */
  ghost predicate SolidExcept(g: Layout, f: Forest, d: set<nat>) {
    forall p: nat {:trigger At(g, f, p)} ::
      Present(g, f, p) && !g.IsRoot(p) && At(g, f, p).Nil? ==> p in d
  }

  /** A forest as the accumulator keeps it: empty trees are roots. */
  ghost predicate Compact(g: Layout, f: Forest) {
    ForestOk(g, f) && SolidExcept(g, f, {})
  }

  lemma NotNilThere(g: Layout, f: Forest, p: nat)
    requires Compact(g, f) && Present(g, f, p) && !g.IsRoot(p)
    ensures !At(g, f, p).Nil?
  {
  }

  /** The targets are leaves of the forest, with their hashes. */
  ghost predicate Leaves(g: Layout, f: Forest, t: map<nat, Hash>) {
    forall p :: p in t ==> At(g, f, p) == Leaf(t[p])
  }

  /** The proof hashes are those of the forest. */
  ghost predicate ProofOf(g: Layout, f: Forest, targets: set<nat>, given: map<nat, Hash>) {
    forall p: nat :: IsProofPos(g, targets, p) ==> p in given && given[p] == Merkle(At(g, f, p))
  }

  /** A touched node exists; one that is touched from below is an inner node. */
  lemma {:induction false} TouchedAt(g: Layout, f: Forest, targets: set<nat>, p: nat)
    requires ForestOk(g, f)
    requires forall x :: x in targets ==> At(g, f, x).Leaf?
    ensures Touched(g, targets, p) ==> !At(g, f, p).Nil? && Present(g, f, p)
    ensures TouchedBelow(g, targets, p) ==> At(g, f, p).Node?
    decreases p
  {
    if TouchedBelow(g, targets, p) {
      g.ChildFacts(p);
      TouchedAt(g, f, targets, g.Left(p));
      TouchedAt(g, f, targets, g.Right(p));
    }
    if Touched(g, targets, p) && !g.IsRoot(p) {
      g.NonRootFacts(p);
    }
  }

  /** Leaves of a forest can be targets together: none is above another. */
  lemma {:induction false} LeavesValid(g: Layout, f: Forest, targets: set<nat>)
    requires ForestOk(g, f)
    requires forall x :: x in targets ==> At(g, f, x).Leaf?
    ensures ValidTargets(g, targets)
  {
    forall x | x in targets
      ensures x in g.nodes && !TouchedBelow(g, targets, x)
    {
      TouchedAt(g, f, targets, x);
    }
  }

  /** An inner node of a forest has two children, and their hashes make up its own. */
  lemma {:induction false} CompactNode(g: Layout, f: Forest, p: nat)
    requires Compact(g, f) && At(g, f, p).Node?
    ensures p in g.nodes && p >= g.m
    ensures At(g, f, p) == Node(At(g, f, g.Left(p)), At(g, f, g.Right(p)))
    ensures !At(g, f, g.Left(p)).Nil? && !At(g, f, g.Right(p)).Nil?
    ensures Merkle(At(g, f, p)) == Combine(Merkle(At(g, f, g.Left(p))), Merkle(At(g, f, g.Right(p))))
  {
    AtFits(g, f, p);
    AtChildren(g, f, p);
    g.ChildFacts(p);
    MerkleEmpty(At(g, f, p).left);
    MerkleEmpty(At(g, f, p).right);
  }

  /** A child of an inner node is touched or is a proof position, if its sibling is touched. */
  lemma {:induction false} ChildKnown(g: Layout, targets: set<nat>, p: nat)
    requires g.WellShaped() && TouchedBelow(g, targets, p)
    ensures p >= g.m && p in g.nodes && g.Left(p) < p && g.Right(p) < p
    ensures Touched(g, targets, g.Left(p)) || IsProofPos(g, targets, g.Left(p))
    ensures Touched(g, targets, g.Right(p)) || IsProofPos(g, targets, g.Right(p))
  {
    g.ChildFacts(p);
  }

  /** The calculation finds the hash of every node it visits. */
  lemma {:induction false} Complete(g: Layout, f: Forest, t: map<nat, Hash>, given: map<nat, Hash>, p: nat)
    requires Compact(g, f) && Leaves(g, f, t) && ProofOf(g, f, t.Keys, given)
    requires Touched(g, t.Keys, p) || IsProofPos(g, t.Keys, p)
    ensures Calc(g, t, given, p) == Merkle(At(g, f, p))
    decreases p
  {
    if p !in t && TouchedBelow(g, t.Keys, p) {
      hide At, Touched, SolidExcept, Merkle, Combine;
      ChildKnown(g, t.Keys, p);
      TouchedAt(g, f, t.Keys, p);
      CompactNode(g, f, p);
      Complete(g, f, t, given, g.Left(p));
      Complete(g, f, t, given, g.Right(p));
    }
  }

  lemma CompactShape(g: Layout, f: Forest)
    requires Compact(g, f)
    ensures g.WellShaped()
  {
  }

  lemma CompactOk(g: Layout, f: Forest)
    requires Compact(g, f)
    ensures ForestOk(g, f)
  {
  }
}
