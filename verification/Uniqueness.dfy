/** Distinct leaves make distinct trees. */
module Uniqueness {
  import opened Hashes
  import opened Positions
  import opened Layouts
  import opened Forests
  import opened Honest
  import opened Deletion
  import opened Sequential
  import opened TreeIndex
  import opened Slots

  /** Leaf hashes that the accumulator can tell apart. */
  ghost predicate GoodSlots(slots: seq<Hash>) {
    (forall i :: 0 <= i < |slots| ==> slots[i] == Empty || IsLeafHash(slots[i])) &&
    (forall i, j :: 0 <= i < j < |slots| && slots[i] != Empty ==> slots[i] != slots[j])
  }

  /** No hash is on two leaves. */
  ghost predicate DistinctLeaves(g: Layout, f: Forest) {
    forall p: nat, q: nat {:trigger At(g, f, p), At(g, f, q)} ::
      At(g, f, p).Leaf? && At(g, f, p) == At(g, f, q) ==> p == q
  }

  ghost function LeafSet(t: Tree): set<Hash> {
    match t
    case Nil => {}
    case Leaf(h) => {h}
    case Node(l, r) => LeafSet(l) + LeafSet(r)
  }

  lemma LeafSetJoin(l: Tree, r: Tree)
    ensures LeafSet(Join(l, r)) == LeafSet(l) + LeafSet(r)
  {
  }

  /** Of two positions above a slot, the later is at or above the other. */
  lemma {:induction false} Chain(g: Layout, a: nat, b: nat, p: nat)
    requires AtOrAbove(g, a, p) && AtOrAbove(g, b, p) && a <= b
    ensures AtOrAbove(g, b, a)
    decreases 2 * g.m - p
  {
    if a != p {
      AboveBounds(g, a, p);
      if b != p {
        AboveParent(g, a, p);
        AboveParent(g, b, p);
        Chain(g, a, b, g.Up(p));
      }
    }
  }

  /** A slot below a position. */
  ghost predicate SlotBelow(g: Layout, slots: seq<Hash>, p: nat, h: Hash, i: nat) {
    i < |slots| && slots[i] == h && h != Empty && AtOrAbove(g, p, i)
  }

  /** The leaves of a block are in its slots. */
  lemma {:induction false} CollapseLeaves(g: Layout, slots: seq<Hash>, p: nat, h: Hash)
    requires g.WellShaped() && p in g.nodes && h in LeafSet(Collapse(g, slots, p))
    ensures exists i: nat :: SlotBelow(g, slots, p, h, i)
    decreases p
  {
    if p < g.m {
      assert SlotBelow(g, slots, p, h, p);
    } else {
      g.ChildFacts(p);
      var l, r := g.Left(p), g.Right(p);
      LeafSetJoin(Collapse(g, slots, l), Collapse(g, slots, r));
      var c := if h in LeafSet(Collapse(g, slots, l)) then l else r;
      CollapseLeaves(g, slots, c, h);
      var i: nat :| SlotBelow(g, slots, c, h, i);
      AboveOf(g, p, c, i);
      assert SlotBelow(g, slots, p, h, i);
    }
  }

  lemma {:induction false} AboveOf(g: Layout, a: nat, b: nat, p: nat)
    requires g.Up(b) == a && b < 2 * g.m - 1 && AtOrAbove(g, b, p)
    ensures AtOrAbove(g, a, p)
    decreases 2 * g.m - p
  {
    if b != p {
      AboveOf(g, a, b, g.Up(p));
      AboveTrans(g, a, p);
    }
  }

  /** Blocks of different slots have different leaves. */
  lemma {:induction false} DisjointBlocks(g: Layout, slots: seq<Hash>, p: nat, q: nat)
    requires g.WellShaped() && GoodSlots(slots) && p in g.nodes && q in g.nodes
    requires !AtOrAbove(g, p, q) && !AtOrAbove(g, q, p)
    ensures LeafSet(Collapse(g, slots, p)) !! LeafSet(Collapse(g, slots, q))
  {
    hide AtOrAbove, Collapse, Layout.WellShaped;
    forall h | h in LeafSet(Collapse(g, slots, p)) && h in LeafSet(Collapse(g, slots, q))
      ensures false
    {
      CollapseLeaves(g, slots, p, h);
      CollapseLeaves(g, slots, q, h);
      var i: nat :| SlotBelow(g, slots, p, h, i);
      var j: nat :| SlotBelow(g, slots, q, h, j);
      assert i == j;
      if p <= q { Chain(g, p, q, i); } else { Chain(g, q, p, i); }
    }
  }

  /** The two sides of every inner node have different leaves. */
  ghost predicate DistinctTree(t: Tree) {
    t.Node? ==> LeafSet(t.left) !! LeafSet(t.right) && DistinctTree(t.left) && DistinctTree(t.right)
  }

  lemma {:induction false} CollapseDistinct(g: Layout, slots: seq<Hash>, p: nat)
    requires g.WellShaped() && GoodSlots(slots) && p in g.nodes
    ensures DistinctTree(Collapse(g, slots, p))
    decreases p
  {
    if p >= g.m {
      g.ChildFacts(p);
      CollapseDistinct(g, slots, g.Left(p));
      CollapseDistinct(g, slots, g.Right(p));
      SiblingsApart(g, p);
      DisjointBlocks(g, slots, g.Left(p), g.Right(p));
    }
  }

  lemma {:induction false} SiblingsApart(g: Layout, p: nat)
    requires g.WellShaped() && p in g.nodes && p >= g.m
    ensures !AtOrAbove(g, g.Left(p), g.Right(p)) && !AtOrAbove(g, g.Right(p), g.Left(p))
  {
    g.ChildFacts(p);
  }

  lemma {:induction false} RootsApart(g: Layout, r: nat, s: nat)
    requires g.WellShaped() && g.IsRoot(r) && g.IsRoot(s) && r != s
    ensures !AtOrAbove(g, r, s) && !AtOrAbove(g, s, r)
  {
    if Above(g, r, s) { RootBelow(g, r, s); }
    if Above(g, s, r) { RootBelow(g, s, r); }
  }

  /** Where the leaf with hash `h` is in a tree at `p`. */
  ghost function PlaceIn(g: Layout, p: nat, t: Tree, h: Hash): nat
    decreases t
  {
    if t.Node? && p >= g.m then
      if h in LeafSet(t.left) then PlaceIn(g, g.Left(p), t.left, h) else PlaceIn(g, g.Right(p), t.right, h)
    else p
  }

  lemma {:induction false} LeafPlace(g: Layout, f: Forest, x: nat, a: nat)
    requires ForestOk(g, f) && At(g, f, x).Leaf?
    requires a in g.nodes && AtOrAbove(g, a, x) && DistinctTree(At(g, f, a))
    ensures At(g, f, x).hash in LeafSet(At(g, f, a))
    ensures PlaceIn(g, a, At(g, f, a), At(g, f, x).hash) == x
    decreases a
  {
    if a != x {
      AboveBounds(g, a, x);
      BelowChild(g, a, x);
      g.ChildFacts(a);
      var c := if AtOrAbove(g, g.Left(a), x) then g.Left(a) else g.Right(a);
      NodeAbove(g, f, x, a);
      AtChildren(g, f, a);
      LeafPlace(g, f, x, c);
    }
  }

  lemma {:induction false} NodeAbove(g: Layout, f: Forest, x: nat, a: nat)
    requires ForestOk(g, f) && !At(g, f, x).Nil? && a in g.nodes && Above(g, a, x)
    ensures At(g, f, a).Node?
    decreases 2 * g.m - x
  {
    RootBelow(g, a, x);
    g.NonRootFacts(x);
    if g.Up(x) != a {
      AboveParent(g, a, x);
      NodeAbove(g, f, g.Up(x), a);
    }
  }

  /** In the forest of distinct slots a leaf hash has one place. */
  lemma {:induction false} DistinctForest(g: Layout, slots: seq<Hash>)
    requires g.WellShaped() && GoodSlots(slots)
    ensures DistinctLeaves(g, ForestOf(g, slots))
  {
    var f := ForestOf(g, slots);
    ForestOfCompact(g, slots);
    forall x: nat, y: nat | At(g, f, x).Leaf? && At(g, f, x) == At(g, f, y)
      ensures x == y
    {
      hide At, AtOrAbove, Collapse, Layout.WellShaped, SolidExcept, PlaceIn, DistinctTree;
      var h := At(g, f, x).hash;
      RootHolds(g, slots, x);
      RootHolds(g, slots, y);
      var r, s := RootOf(g, x), RootOf(g, y);
      if r != s {
        RootsApart(g, r, s);
        DisjointBlocks(g, slots, r, s);
      }
    }
  }

  /** A leaf of the forest is in the block of its root, at one place. */
  lemma {:induction false} RootHolds(g: Layout, slots: seq<Hash>, x: nat)
    requires g.WellShaped() && GoodSlots(slots) && At(g, ForestOf(g, slots), x).Leaf?
    ensures var r, h := RootOf(g, x), At(g, ForestOf(g, slots), x).hash;
            && g.IsRoot(r) && h in LeafSet(Collapse(g, slots, r))
            && PlaceIn(g, r, Collapse(g, slots, r), h) == x
  {
    var f := ForestOf(g, slots);
    ForestOfCompact(g, slots);
    RootOfFacts(g, x);
    var r := RootOf(g, x);
    CollapseDistinct(g, slots, r);
    assert At(g, f, r) == Collapse(g, slots, r) by { g.NodeBound(r); }
    LeafPlace(g, f, x, r);
  }

  /** Every leaf of a tree has a hash that is not a parent hash. */
  ghost predicate LeafHashes(t: Tree) {
    match t
    case Nil => true
    case Leaf(h) => IsLeafHash(h)
    case Node(l, r) => LeafHashes(l) && LeafHashes(r)
  }

  /** A root hash stands for one tree. */
  lemma {:induction false} MerkleInjective(t: Tree, u: Tree)
    requires CollisionFree() && LeafHashes(t) && LeafHashes(u) && Merkle(t) == Merkle(u)
    ensures t == u
    decreases t
  {
    if t.Node? && u.Node? {
      MerkleInjective(t.left, u.left);
      MerkleInjective(t.right, u.right);
    }
  }

  lemma {:induction false} CollapseLeafHashes(g: Layout, slots: seq<Hash>, p: nat)
    requires GoodSlots(slots)
    ensures LeafHashes(Collapse(g, slots, p))
    decreases p
  {
    if g.m <= p < 2 * g.m - 1 {
      CollapseLeafHashes(g, slots, g.Left(p));
      CollapseLeafHashes(g, slots, g.Right(p));
    }
  }

  lemma {:induction false} AtLeafHashes(g: Layout, slots: seq<Hash>, p: nat)
    requires g.WellShaped() && GoodSlots(slots)
    ensures LeafHashes(At(g, ForestOf(g, slots), p))
    decreases 2 * g.m - p
  {
    var f := ForestOf(g, slots);
    if g.IsRoot(p) {
      CollapseLeafHashes(g, slots, p);
    } else if p in g.nodes {
      g.NonRootFacts(p);
      AtLeafHashes(g, slots, g.Up(p));
    }
  }

  lemma LeafSetEmpty(t: Tree)
    requires Solid(t)
    ensures LeafSet(t) == {} <==> t.Nil?
  {
  }

  /** Different roots have different hashes, unless they are empty. */
  lemma {:induction false} DistinctRoots(g: Layout, slots: seq<Hash>, r: nat, s: nat)
    requires CollisionFree() && g.WellShaped() && GoodSlots(slots) && g.IsRoot(r) && g.IsRoot(s)
    requires Merkle(Collapse(g, slots, r)) == Merkle(Collapse(g, slots, s)) != Empty
    ensures r == s
  {
    CollapseLeafHashes(g, slots, r);
    CollapseLeafHashes(g, slots, s);
    MerkleInjective(Collapse(g, slots, r), Collapse(g, slots, s));
    if r != s {
      RootsApart(g, r, s);
      DisjointBlocks(g, slots, r, s);
      CollapseFits(g, slots, r);
      LeafSetEmpty(Collapse(g, slots, r));
    }
  }

  /** The place found for a leaf hash has that leaf. */
  lemma {:induction false} PlaceInAt(g: Layout, f: Forest, x: nat, h: Hash)
    requires ForestOk(g, f) && h in LeafSet(At(g, f, x))
    ensures At(g, f, PlaceIn(g, x, At(g, f, x), h)) == Leaf(h)
    decreases x
  {
    var t := At(g, f, x);
    if t.Node? {
      AtFits(g, f, x);
      AtChildren(g, f, x);
      g.ChildFacts(x);
      PlaceInAt(g, f, if h in LeafSet(t.left) then g.Left(x) else g.Right(x), h);
    }
  }

  /** From different positions the same descent ends at different places. */
  lemma {:induction false} PlaceInInjective(g: Layout, x: nat, y: nat, t: Tree, h: Hash)
    requires FitsBelow(g, x, t) && FitsBelow(g, y, t) && PlaceIn(g, x, t, h) == PlaceIn(g, y, t, h)
    ensures x == y
    decreases t
  {
    if t.Node? {
      if h in LeafSet(t.left) {
        PlaceInInjective(g, g.Left(x), g.Left(y), t.left, h);
      } else {
        PlaceInInjective(g, g.Right(x), g.Right(y), t.right, h);
      }
    }
  }

  /** A tree that is not empty is at one place of the forest. */
  lemma {:induction false} OnePlace(g: Layout, slots: seq<Hash>, x: nat, y: nat)
    requires g.WellShaped() && GoodSlots(slots)
    requires At(g, ForestOf(g, slots), x) == At(g, ForestOf(g, slots), y) && !At(g, ForestOf(g, slots), x).Nil?
    ensures x == y
  {
    var f := ForestOf(g, slots);
    ForestOfCompact(g, slots);
    DistinctForest(g, slots);
    var t := At(g, f, x);
    hide At, Layout.WellShaped, ForestOf, PlaceIn, LeafSet, GoodSlots;
    ForestSolid(g, slots, x);
    LeafSetEmpty(t);
    var h :| h in LeafSet(t);
    AtFits(g, f, x);
    AtFits(g, f, y);
    PlaceInAt(g, f, x, h);
    PlaceInAt(g, f, y, h);
    PlaceInInjective(g, x, y, t, h);
  }

  lemma {:induction false} ForestSolid(g: Layout, slots: seq<Hash>, x: nat)
    requires g.WellShaped()
    ensures Solid(At(g, ForestOf(g, slots), x))
  {
    ForestOfCompact(g, slots);
    forall r | r in ForestOf(g, slots)
      ensures Solid(ForestOf(g, slots)[r])
    {
      CollapseFits(g, slots, r);
    }
    AtSolid(g, ForestOf(g, slots), x);
  }

  /** The hash of a leaf of the forest is in the slots. */
  lemma {:induction false} LeafOfSlots(g: Layout, slots: seq<Hash>, x: nat, h: Hash)
    requires g.WellShaped() && GoodSlots(slots) && At(g, ForestOf(g, slots), x) == Leaf(h)
    ensures h in slots
  {
    hide Layout.WellShaped, GoodSlots, At, ForestOf, Layout.IsRoot, Collapse, PlaceIn;
    RootHolds(g, slots, x);
    RootNode(g, RootOf(g, x));
    CollapseLeaves(g, slots, RootOf(g, x), h);
    var i: nat :| SlotBelow(g, slots, RootOf(g, x), h, i);
    assert slots[i] == h;
  }

  lemma {:induction false} GoodBefore(slots: seq<Hash>, h: Hash)
    requires GoodSlots(slots + [h]) && h != Empty
    ensures GoodSlots(slots) && IsLeafHash(h) && h !in slots
  {
    hide IsLeafHash;
    var more := slots + [h];
    assert more[|slots|] == h;
    assert forall i :: 0 <= i < |slots| ==> more[i] == slots[i];
  }

  lemma GoodPrefix(slots: seq<Hash>, k: nat)
    requires GoodSlots(slots) && k <= |slots|
    ensures GoodSlots(slots[..k])
  {
    hide IsLeafHash;
  }

  lemma LeafNotEmpty(h: Hash)
    requires IsLeafHash(h)
    ensures h != Empty
  {
  }

  /** A tree whose hash is a leaf hash is that leaf. */
  lemma {:induction false} LeafTree(t: Tree, h: Hash)
    requires IsLeafHash(h) && Merkle(t) == h
    ensures t == Leaf(h)
  {
  }
}
