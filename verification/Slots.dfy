/** What the accumulator stands for. */
module Slots {
  // A deleted leaf leaves an empty slot. The forest is determined by the slots: each root stands for a
  // full block of them, and the tree of a block is that of its two halves, an empty half giving way to
  // the other.

  import opened Hashes
  import opened Positions
  import opened Geometry
  import opened Layouts
  import opened Forests
  import opened Honest
  import opened Deletion

  function SlotTree(slots: seq<Hash>, i: nat): Tree {
    if i >= |slots| || slots[i] == Empty then Nil else Leaf(slots[i])
  }

  /** The tree of the `k`-th block of `2^h` slots. */
  function Block(slots: seq<Hash>, h: nat, k: nat): Tree
    decreases h
  {
    if h == 0 then SlotTree(slots, k)
    else Join(Block(slots, h - 1, 2 * k), Block(slots, h - 1, 2 * k + 1))
  }

  /** The trees of the roots on row `h` and above, from the top row down. */
  function RootTrees(slots: seq<Hash>, h: nat): seq<Tree>
    decreases Shr(|slots|, h)
  {
    var k := Shr(|slots|, h);
    if k == 0 then []
    else RootTrees(slots, h + 1) + if k % 2 == 1 then [Block(slots, h, k - 1)] else []
  }

  /** Where those roots are. */
  function RootList(n: nat, rows: nat, h: nat): seq<nat>
    requires n <= Pow2(rows)
    decreases Shr(n, h)
  {
    var k := Shr(n, h);
    if k == 0 then []
    else
      RootRowFits(n, rows, h);
      RootList(n, rows, h + 1) + if k % 2 == 1 then [RootPosition(n, h, rows)] else []
  }

  lemma {:induction false} RootRowFits(n: nat, rows: nat, h: nat)
    requires n <= Pow2(rows) && Shr(n, h) > 0
    ensures h <= rows
  {
    RowFits(n, h);
    if rows < TreeRows(n) {
      PowMono(rows, TreeRows(n) - 1);
    }
  }

  /** The tree of the slots below a position. */
  ghost function Collapse(g: Layout, slots: seq<Hash>, p: nat): Tree
    decreases p
  {
    if p < g.m || p >= 2 * g.m - 1 then SlotTree(slots, p)
    else Join(Collapse(g, slots, g.Left(p)), Collapse(g, slots, g.Right(p)))
  }

  /** The forest of the slots. */
  ghost function ForestOf(g: Layout, slots: seq<Hash>): Forest {
    map p | p in g.nodes && g.IsRoot(p) :: Collapse(g, slots, p)
  }

  /** A position stands for the block of slots its row and offset say. */
  lemma {:induction false} CollapseBlock(g: Layout, rows: nat, slots: seq<Hash>, p: nat)
    requires g.m == Pow2(rows) && Valid(rows, p)
    ensures Collapse(g, slots, p) == Block(slots, Row(rows, p), Offset(rows, p))
    decreases p
  {
    hide Block, Collapse, Row, Offset, Pow2;
    if p >= g.m {
      RowChildren(rows, p);
      CollapseBlock(g, rows, slots, g.Left(p));
      CollapseBlock(g, rows, slots, g.Right(p));
      CollapseStep(g, slots, p);
      BlockStep(slots, Row(rows, p), Offset(rows, p));
    } else {
      CollapseLeaf(g, rows, slots, p);
    }
  }

  lemma CollapseStep(g: Layout, slots: seq<Hash>, p: nat)
    requires g.m <= p < 2 * g.m - 1
    ensures Collapse(g, slots, p) == Join(Collapse(g, slots, g.Left(p)), Collapse(g, slots, g.Right(p)))
  {
  }

  lemma BlockStep(slots: seq<Hash>, h: nat, k: nat)
    requires h > 0
    ensures Block(slots, h, k) == Join(Block(slots, h - 1, 2 * k), Block(slots, h - 1, 2 * k + 1))
  {
  }

  lemma CollapseLeaf(g: Layout, rows: nat, slots: seq<Hash>, p: nat)
    requires g.m == Pow2(rows) && Valid(rows, p) && p < g.m
    ensures Row(rows, p) == 0 && Offset(rows, p) == p
    ensures Collapse(g, slots, p) == Block(slots, 0, p)
  {
  }

  lemma {:induction false} CollapseFits(g: Layout, slots: seq<Hash>, p: nat)
    requires g.WellShaped() && p in g.nodes
    ensures Fits(g, p, Collapse(g, slots, p)) && Solid(Collapse(g, slots, p))
    decreases p
  {
    if p >= g.m {
      g.ChildFacts(p);
      var l, r := Collapse(g, slots, g.Left(p)), Collapse(g, slots, g.Right(p));
      CollapseFits(g, slots, g.Left(p));
      CollapseFits(g, slots, g.Right(p));
      FitsHigher(g, g.Left(p), p, l);
      FitsHigher(g, g.Right(p), p, r);
    }
  }

  /** The forest of the slots is as the accumulator keeps it. */
  lemma {:induction false} ForestOfCompact(g: Layout, slots: seq<Hash>)
    requires g.WellShaped()
    ensures Compact(g, ForestOf(g, slots))
  {
    var f := ForestOf(g, slots);
    forall r | r in f
      ensures Fits(g, r, f[r]) && Solid(f[r])
    {
      CollapseFits(g, slots, r);
    }
    SolidForest(g, f);
  }

  lemma {:induction false} SolidForest(g: Layout, f: Forest)
    requires ForestOk(g, f) && forall r :: r in f ==> Solid(f[r])
    ensures Compact(g, f)
  {
    forall p: nat | Present(g, f, p) && !g.IsRoot(p)
      ensures !At(g, f, p).Nil?
    {
      AtUp(g, f, p);
      AtSolid(g, f, g.Up(p));
    }
  }

  /** The slots with some hashes deleted. */
  function Erase(slots: seq<Hash>, dels: set<Hash>): (r: seq<Hash>)
    ensures |r| == |slots|
  {
    seq(|slots|, i requires 0 <= i < |slots| => if slots[i] in dels then Empty else slots[i])
  }

  function RemoveHashes(t: Tree, dels: set<Hash>): Tree {
    match t
    case Nil => Nil
    case Leaf(h) => if h in dels then Nil else t
    case Node(l, r) => Join(RemoveHashes(l, dels), RemoveHashes(r, dels))
  }

  lemma {:induction false} CollapseErase(g: Layout, slots: seq<Hash>, dels: set<Hash>, p: nat)
    ensures Collapse(g, Erase(slots, dels), p) == RemoveHashes(Collapse(g, slots, p), dels)
    decreases p
  {
    if g.m <= p < 2 * g.m - 1 {
      CollapseErase(g, slots, dels, g.Left(p));
      CollapseErase(g, slots, dels, g.Right(p));
    }
  }

  /** The positions `d` are those of the leaves with the hashes `dels`. */
  ghost predicate LeafPositions(g: Layout, f: Forest, d: set<nat>, dels: set<Hash>) {
    (forall x :: x in d ==> At(g, f, x).Leaf? && At(g, f, x).hash in dels) &&
    (forall x: nat {:trigger At(g, f, x)} :: At(g, f, x).Leaf? && At(g, f, x).hash in dels ==> x in d)
  }

  lemma {:induction false} LeafDeletable(g: Layout, f: Forest, d: set<nat>)
    requires Compact(g, f) && forall x :: x in d ==> At(g, f, x).Leaf?
    ensures Deletable(g, f, d)
  {
    forall x | x in d
      ensures Present(g, f, x)
    {
      if x in g.nodes && !g.IsRoot(x) {
        g.NonRootFacts(x);
      }
    }
  }

  lemma {:induction false} RemainsByHash(g: Layout, f: Forest, d: set<nat>, dels: set<Hash>, p: nat)
    requires Compact(g, f) && Deletable(g, f, d) && LeafPositions(g, f, d, dels) && p in g.nodes
    ensures Remains(g, f, d, p) == RemoveHashes(At(g, f, p), dels)
    decreases p
  {
    if At(g, f, p).Node? {
      hide At, Rem, SolidExcept, LeafPositions;
      RemainsNode(g, f, d, p);
      CompactNode(g, f, p);
      g.ChildFacts(p);
      RemainsByHash(g, f, d, dels, g.Left(p));
      RemainsByHash(g, f, d, dels, g.Right(p));
    }
  }

  /** Deleting the leaves with some hashes from the forest of the slots gives the forest
      of the slots with those hashes deleted. */
  lemma {:induction false} DeletedSlots(g: Layout, slots: seq<Hash>, d: set<nat>, dels: set<Hash>)
    requires g.WellShaped() && LeafPositions(g, ForestOf(g, slots), d, dels)
    ensures Compact(g, ForestOf(g, slots)) && Deletable(g, ForestOf(g, slots), d)
    ensures Deleted(g, ForestOf(g, slots), d) == ForestOf(g, Erase(slots, dels))
  {
    var f := ForestOf(g, slots);
    ForestOfCompact(g, slots);
    LeafDeletable(g, f, d);
    forall r | r in f
      ensures Deleted(g, f, d)[r] == Collapse(g, Erase(slots, dels), r)
    {
      RemainsByHash(g, f, d, dels, r);
      CollapseErase(g, slots, dels, r);
    }
  }

  lemma {:induction false} PosOf(rows: nat, h: nat, k: nat)
    requires h <= rows && k < Pow2(rows - h)
    ensures Valid(rows, Start(rows, h) + k)
    ensures Row(rows, Start(rows, h) + k) == h && Offset(rows, Start(rows, h) + k) == k
  {
    PowStep(rows + 1 - h);
    PowMono(0, rows - h);
    RowUnique(rows, Start(rows, h) + k, h);
  }

  /** The root on a row, when there is one. */
  lemma {:induction false} RootOnRow(n: nat, rows: nat, h: nat)
    requires n <= Pow2(rows) && Shr(n, h) % 2 == 1
    ensures h <= rows
    ensures var p := RootPosition(n, h, rows);
            IsRoot(rows, n, p) && Row(rows, p) == h && Offset(rows, p) == Shr(n, h) - 1
  {
    hide Row, Start, Pow2;
    RootRowFits(n, rows, h);
    ShrBound(n, rows, h);
    PosOf(rows, h, Shr(n, h) - 1);
    RootIff(rows, n, RootPosition(n, h, rows));
  }

  ghost predicate Descending(s: seq<nat>) {
    forall i, j :: 0 <= i < j < |s| ==> s[i] > s[j]
  }

  /** The list of roots has the roots of the forest, from the top row down. */
  lemma {:induction false} RootListFacts(n: nat, rows: nat, h: nat)
    requires n <= Pow2(rows)
    ensures Descending(RootList(n, rows, h))
    ensures forall p: nat :: p in RootList(n, rows, h) <==> IsRoot(rows, n, p) && Row(rows, p) >= h
    decreases Shr(n, h)
  {
    hide Row, RootPosition, Offset, Parent;
    if Shr(n, h) == 0 {
      forall p: nat | IsRoot(rows, n, p) && Row(rows, p) >= h
        ensures false
      {
        ShrZero(n, h, Row(rows, p));
        RootIsLeft(rows, n, p);
      }
    } else {
      RootListFacts(n, rows, h + 1);
      if Shr(n, h) % 2 == 1 {
        RootOnRow(n, rows, h);
      }
      forall p: nat | IsRoot(rows, n, p) && Row(rows, p) == h
        ensures Shr(n, h) % 2 == 1 && p == RootPosition(n, h, rows)
      {
        RootIsLeft(rows, n, p);
        RootOnRow(n, rows, h);
        SamePlace(rows, p, RootPosition(n, h, rows));
      }
      HigherRows(rows, n, h);
      if Shr(n, h) % 2 == 1 {
        DescendingAppend(RootList(n, rows, h + 1), RootPosition(n, h, rows));
      } else {
        assert RootList(n, rows, h) == RootList(n, rows, h + 1);
      }
    }
  }

  lemma DescendingAppend(s: seq<nat>, p: nat)
    requires Descending(s) && forall x :: x in s ==> x > p
    ensures Descending(s + [p])
  {
    assert forall i :: 0 <= i < |s| ==> s[i] in s;
  }

  lemma ShrZero(n: nat, h: nat, t: nat)
    requires Shr(n, h) == 0 && h <= t
    ensures Shr(n, t) == 0
  {
    if h < t {
      ShrZero(n, h, t - 1);
    }
  }

  lemma {:induction false} HigherRows(rows: nat, n: nat, h: nat)
    requires n <= Pow2(rows)
    ensures forall p: nat, q: nat ::
              IsRoot(rows, n, p) && IsRoot(rows, n, q) && Row(rows, p) > h && Row(rows, q) == h ==> p > q
  {
    hide Row, Offset, Shr, Parent;
    forall p: nat, q: nat | IsRoot(rows, n, p) && IsRoot(rows, n, q) && Row(rows, p) > h && Row(rows, q) == h
      ensures p > q
    {
      RootValid(rows, n, p);
      RootValid(rows, n, q);
      if p <= q {
        RowMonotone(rows, p, q);
      }
    }
  }

  lemma RootValid(rows: nat, n: nat, p: nat)
    requires IsRoot(rows, n, p)
    ensures Valid(rows, p)
  {
  }

  /** The trees of the roots, at the positions of the roots. */
  lemma {:induction false} RootTreesAt(g: Layout, rows: nat, slots: seq<Hash>, h: nat)
    requires LayoutFor(g, rows, |slots|)
    ensures |RootTrees(slots, h)| == |RootList(|slots|, rows, h)|
    ensures forall i :: 0 <= i < |RootTrees(slots, h)| ==>
              RootTrees(slots, h)[i] == Collapse(g, slots, RootList(|slots|, rows, h)[i])
    decreases Shr(|slots|, h)
  {
    hide Row, RootPosition, IsRoot, Collapse, Block, Offset, Layout.WellShaped;
    var n := |slots|;
    if Shr(n, h) > 0 {
      RootTreesAt(g, rows, slots, h + 1);
      if Shr(n, h) % 2 == 1 {
        RootOnRow(n, rows, h);
        RootValid(rows, n, RootPosition(n, h, rows));
        CollapseBlock(g, rows, slots, RootPosition(n, h, rows));
      }
    }
  }

  lemma AtRoot(g: Layout, slots: seq<Hash>, p: nat)
    requires g.WellShaped() && g.IsRoot(p)
    ensures At(g, ForestOf(g, slots), p) == Collapse(g, slots, p)
  {
  }

  /** The trees of blocks have no empty leaves. */
  lemma {:induction false} BlockOk(slots: seq<Hash>, h: nat, k: nat)
    ensures LeavesOk(Block(slots, h, k))
    decreases h
  {
    if h > 0 {
      BlockOk(slots, h - 1, 2 * k);
      BlockOk(slots, h - 1, 2 * k + 1);
    }
  }

  lemma EraseCount(slots: seq<Hash>, hashes: set<Hash>)
    ensures |Erase(slots, hashes)| == |slots|
  {
  }
}
