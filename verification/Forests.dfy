/** Forests of trees, and what is at a position. */
module Forests {
  import opened Hashes
  import opened Positions
  import opened Layouts

  /** A tree of the accumulator.  The place of a leaf is not its row: a leaf whose
      sibling was deleted has moved up. */
  datatype Tree = Nil | Leaf(hash: Hash) | Node(left: Tree, right: Tree)

  function Merkle(t: Tree): Hash {
    match t
    case Nil => Empty
    case Leaf(h) => h
    case Node(l, r) => ParentHash(Merkle(l), Merkle(r))
  }

  /** What two siblings become when empty ones give way to the other. */
  function Join(l: Tree, r: Tree): Tree {
    if l.Nil? then r else if r.Nil? then l else Node(l, r)
  }

  /** No leaf carries the empty hash. */
  ghost predicate LeavesOk(t: Tree) {
    match t
    case Nil => true
    case Leaf(h) => h != Empty
    case Node(l, r) => LeavesOk(l) && LeavesOk(r)
  }

  lemma MerkleEmpty(t: Tree)
    requires LeavesOk(t)
    ensures Merkle(t) == Empty <==> t.Nil?
  {
  }

  lemma MerkleJoin(l: Tree, r: Tree)
    requires LeavesOk(l) && LeavesOk(r)
    ensures LeavesOk(Join(l, r))
    ensures Merkle(Join(l, r)) == Combine(Merkle(l), Merkle(r))
  {
    MerkleEmpty(l);
    MerkleEmpty(r);
  }

  /** A tree for each root. */
  type Forest = map<nat, Tree>

  /** The tree at a position, by descent from the root above it. */
  ghost function At(g: Layout, f: Forest, p: nat): Tree
    decreases 2 * g.m - p
  {
    if p !in g.nodes || p >= 2 * g.m - 1 then Nil
    else if g.IsRoot(p) then if p in f then f[p] else Nil
    else
      match At(g, f, g.Up(p))
      case Node(l, r) => if p % 2 == 0 then l else r
      case _ => Nil
  }

  /** A tree fits at a position: there are rows enough below it. */
  ghost predicate Fits(g: Layout, p: nat, t: Tree) {
    LeavesOk(t) && FitsBelow(g, p, t)
  }

  ghost predicate FitsBelow(g: Layout, p: nat, t: Tree)
    decreases t
  {
    t.Node? ==> p >= g.m && FitsBelow(g, g.Left(p), t.left) && FitsBelow(g, g.Right(p), t.right)
  }

  ghost predicate ForestOk(g: Layout, f: Forest) {
    g.WellShaped() &&
    (forall p: nat :: p in f <==> g.IsRoot(p)) &&
    (forall p: nat :: p in f ==> Fits(g, p, f[p]))
  }

  lemma {:induction false} AtFits(g: Layout, f: Forest, p: nat)
    requires ForestOk(g, f)
    ensures Fits(g, p, At(g, f, p))
    decreases 2 * g.m - p
  {
    if p in g.nodes && !g.IsRoot(p) {
      g.NonRootFacts(p);
      AtFits(g, f, g.Up(p));
    }
  }

  /** There is a node at `p`, or an empty root. */
  ghost predicate Present(g: Layout, f: Forest, p: nat) {
    p in g.nodes && (g.IsRoot(p) || At(g, f, g.Up(p)).Node?)
  }

  lemma PresentBelow(g: Layout, f: Forest, p: nat)
    requires g.WellShaped() && p in g.nodes && !g.IsRoot(p)
    ensures Present(g, f, p) <==> At(g, f, g.Up(p)).Node?
    ensures Present(g, f, p) ==> Present(g, f, g.Up(p))
  {
    g.NonRootFacts(p);
  }

  /** The children of an inner node. */
  lemma {:induction false} AtChildren(g: Layout, f: Forest, p: nat)
    requires ForestOk(g, f) && At(g, f, p).Node?
    ensures p in g.nodes && p >= g.m && Present(g, f, p)
    ensures At(g, f, g.Left(p)) == At(g, f, p).left && At(g, f, g.Right(p)) == At(g, f, p).right
    ensures Present(g, f, g.Left(p)) && Present(g, f, g.Right(p))
  {
    AtFits(g, f, p);
    g.ChildFacts(p);
    if !g.IsRoot(p) {
      g.NonRootFacts(p);
    }
  }

  lemma {:induction false} AtUp(g: Layout, f: Forest, p: nat)
    requires ForestOk(g, f) && Present(g, f, p) && !g.IsRoot(p)
    ensures p in g.nodes && g.Up(p) in g.nodes && Sibling(p) in g.nodes && !g.IsRoot(Sibling(p))
    ensures At(g, f, g.Up(p)).Node? && Present(g, f, g.Up(p)) && Present(g, f, Sibling(p))
    ensures At(g, f, g.Up(p)) ==
            if p % 2 == 0 then Node(At(g, f, p), At(g, f, Sibling(p))) else Node(At(g, f, Sibling(p)), At(g, f, p))
  {
    g.NonRootFacts(p);
    AtChildren(g, f, g.Up(p));
  }
}
