/** The full pollard, as the trees below its roots. */
module Pollards {
  import opened Hashes
  import opened Options
  import opened Positions
  import opened Geometry
  import opened Layouts
  import opened Entries
  import opened Shape
  import opened Forests
  import opened Honest
  import opened Deletion
  import opened Sequential
  import opened Slots
  import opened Growth
  import opened Navigation
  import opened TreeIndex
  import opened OneDeletion

  /** The list of roots has one root for each bigger tree before the root of a row. */
  lemma {:induction false} RootsAbove(n: nat, rows: nat, h: nat)
    requires n <= Pow2(rows) && h <= rows
    ensures |RootList(n, rows, h + 1)| == BiggerTrees(n, h, rows)
    decreases rows - h
  {
    hide Pow2;
    if h == rows {
      ShrBound(n, rows, rows);
      PowNone();
      assert Shr(n, rows + 1) == Shr(n, rows) / 2;
    } else {
      RootsAbove(n, rows, h + 1);
      RootListStep(n, rows, h + 1);
    }
  }

  lemma PowNone()
    ensures Pow2(0) == 1
  {
  }

  lemma {:induction false} RootListStep(n: nat, rows: nat, h: nat)
    requires n <= Pow2(rows) && h <= rows
    ensures RootList(n, rows, h) == RootList(n, rows, h + 1) + if Shr(n, h) % 2 == 1 then [RootPosition(n, h, rows)]
            else []
  {
    if Shr(n, h) == 0 { assert Shr(n, h + 1) == 0; }
  }

  lemma {:induction false} RootListPrefix(n: nat, rows: nat, h: nat)
    requires n <= Pow2(rows) && h <= rows
    ensures RootList(n, rows, h) <= RootList(n, rows, 0)
    decreases h
  {
    hide RootList;
    if h > 0 {
      RootListPrefix(n, rows, h - 1);
      RootListStep(n, rows, h - 1);
    }
  }

  /** The tree that is found for a position is the one of its root. */
  lemma {:induction false} RootAtIndex(g: Layout, n: nat, p: nat)
    requires LayoutFor(g, TreeRows(n), n) && p in g.nodes
    ensures Valid(TreeRows(n), RootOf(g, p))
    ensures var k := BiggerTrees(n, Row(TreeRows(n), RootOf(g, p)), TreeRows(n));
            k < |RootList(n, TreeRows(n), 0)| && RootList(n, TreeRows(n), 0)[k] == RootOf(g, p)
  {
    hide Row, Offset, Pow2, RootList, BiggerTrees, LayoutFor, RootOf, InForest, Layout.WellShaped;
    var rows, r := TreeRows(n), RootOf(g, p);
    LayoutFits(g, rows, n);
    RootOfFacts(g, p);
    RootNode(g, r);
    g.NodeBound(r);
    LayoutAt(g, rows, n, r);
    RootAtRow(rows, n, r);
    var h := Row(rows, r);
    RootsAbove(n, rows, h);
    RootListStep(n, rows, h);
    RootListPrefix(n, rows, h);
  }

  lemma {:induction false} RootAtRow(rows: nat, n: nat, r: nat)
    requires n <= Pow2(rows) && IsRoot(rows, n, r)
    ensures Valid(rows, r) && Row(rows, r) <= rows && Shr(n, Row(rows, r)) % 2 == 1
    ensures RootPosition(n, Row(rows, r), rows) == r
  {
    hide Row;
    RootIsLeft(rows, n, r);
    RowBounds(rows, r);
    assert Shr(n, Row(rows, r) + 1) == Shr(n, Row(rows, r)) / 2;
  }

  /** The trees of a forest, in the order of the roots. */
  ghost predicate TreesOf(g: Layout, n: nat, f: Forest, roots: seq<Tree>) {
    var list := RootList(n, TreeRows(n), 0);
    |roots| == |list| && forall k :: 0 <= k < |list| ==> list[k] in f && roots[k] == f[list[k]]
  }

  /** The trees of the forest of some slots are the trees of its roots. */
  lemma {:induction false} TreesOfSlots(g: Layout, slots: seq<Hash>)
    requires LayoutFor(g, TreeRows(|slots|), |slots|)
    ensures TreesOf(g, |slots|, ForestOf(g, slots), RootTrees(slots, 0))
    ensures forall roots :: TreesOf(g, |slots|, ForestOf(g, slots), roots) ==> roots == RootTrees(slots, 0)
  {
    hide RootList, RootTrees, Collapse, LayoutFor, IsRoot, Row;
    var n, rows := |slots|, TreeRows(|slots|);
    LayoutFits(g, rows, n);
    RootTreesAt(g, rows, slots, 0);
    RootListFacts(n, rows, 0);
    forall k | 0 <= k < |RootList(n, rows, 0)|
      ensures RootList(n, rows, 0)[k] in ForestOf(g, slots)
      ensures ForestOf(g, slots)[RootList(n, rows, 0)[k]] == Collapse(g, slots, RootList(n, rows, 0)[k])
    {
      var r := RootList(n, rows, 0)[k];
      assert r in RootList(n, rows, 0);
      LayoutAt(g, rows, n, r);
    }
  }

  lemma {:induction false} SlotsSolid(g: Layout, slots: seq<Hash>)
    requires g.WellShaped()
    ensures AllSolid(g, ForestOf(g, slots))
    ensures ForestOf(g, slots).Keys == set r | r in g.nodes && g.IsRoot(r)
  {
    var f := ForestOf(g, slots);
    ForestOfCompact(g, slots);
    forall r | r in f
      ensures Solid(f[r])
    {
      CollapseFits(g, slots, r);
    }
  }

  /** One deletion changes the tree it is in, and no other. */
  lemma {:induction false} OneTree(g: Layout, n: nat, f: Forest, d: nat, r: nat)
    requires LayoutFor(g, TreeRows(n), n) && AllSolid(g, f) && d in g.nodes && r in f && g.IsRoot(r)
    ensures r != RootOf(g, d) ==> Deleted(g, f, {d})[r] == f[r]
    ensures r == d ==> Deleted(g, f, {d})[r] == Nil
    ensures r == RootOf(g, d) && r != d ==>
              && Valid(TreeRows(n), r) && Valid(TreeRows(n), d)
              && Deleted(g, f, {d})[r] == DeleteAt(TreeRows(n), r, f[r], d)
  {
    hide LayoutFor, Above, Layout.WellShaped, RootOf, ForestOk, DeleteAt, Layout.IsRoot;
    LayoutFits(g, TreeRows(n), n);
    SolidTree(g, f, r);
    RootOfFacts(g, d);
    if r == d {
      RootOfRoot(g, r);
    } else if r == RootOf(g, d) {
      DeleteAtRem(g, TreeRows(n), r, f[r], d);
    } else {
      if AtOrAbove(g, r, d) { SameTree(g, r, d); RootOfRoot(g, r); }
      NotBelow(g, r, d, f[r]);
    }
  }

  lemma {:induction false} RootPlaces(g: Layout, n: nat, k: nat)
    requires LayoutFor(g, TreeRows(n), n) && k < |RootList(n, TreeRows(n), 0)|
    ensures g.IsRoot(RootList(n, TreeRows(n), 0)[k])
    ensures forall j :: 0 <= j < |RootList(n, TreeRows(n), 0)| && j != k ==>
              RootList(n, TreeRows(n), 0)[j] != RootList(n, TreeRows(n), 0)[k]
  {
    hide RootList, LayoutFor, IsRoot, Row;
    LayoutFits(g, TreeRows(n), n);
    RootListFacts(n, TreeRows(n), 0);
    var r := RootList(n, TreeRows(n), 0)[k];
    assert r in RootList(n, TreeRows(n), 0);
    LayoutAt(g, TreeRows(n), n, r);
  }

  /** A root of the forest, by position. */
  lemma {:induction false} RootTestIff(g: Layout, n: nat, p: nat)
    requires LayoutFor(g, TreeRows(n), n) && p in g.nodes
    ensures Valid(TreeRows(n), p)
    ensures IsRootPositionOnRow(p, n, Row(TreeRows(n), p)) <==> g.IsRoot(p)
    ensures g.IsRoot(p) <==> RootOf(g, p) == p
  {
    hide LayoutFor, Row, Offset, IsRoot, Layout.WellShaped, RootOf;
    LayoutFits(g, TreeRows(n), n);
    LayoutAt(g, TreeRows(n), n, p);
    RootTest(TreeRows(n), n, p);
    RootOfFacts(g, p);
    if g.IsRoot(p) { RootOfRoot(g, p); }
  }

  /** The ancestor found by going up to the row of the root is the root. */
  lemma {:induction false} RiseToRoot(g: Layout, n: nat, p: nat, rise: nat)
    requires LayoutFor(g, TreeRows(n), n) && p in g.nodes
    requires Valid(TreeRows(n), p) && Valid(TreeRows(n), RootOf(g, p)) &&
             rise + Row(TreeRows(n), p) == Row(TreeRows(n), RootOf(g, p))
    ensures ParentMany(p, rise, TreeRows(n)) == RootOf(g, p)
  {
    hide LayoutFor, Row, Layout.WellShaped, RootOf, Above, ParentMany, IsAncestor, Pow2, TreeRows;
    LayoutFits(g, TreeRows(n), n);
    RootOfFacts(g, p);
    if RootOf(g, p) != p {
      AncestorAbove(g, TreeRows(n), RootOf(g, p), p);
      AncestorIs(RootOf(g, p), p, TreeRows(n));
    } else {
      RiseNone(p, TreeRows(n));
    }
  }

  lemma AncestorIs(a: nat, p: nat, rows: nat)
    requires Valid(rows, p) && IsAncestor(a, p, rows)
    ensures Valid(rows, a) && Row(rows, p) <= Row(rows, a) && ParentMany(p, Row(rows, a) - Row(rows, p), rows) == a
  {
    hide Row, ParentMany;
  }

  lemma RiseNone(p: nat, rows: nat)
    ensures ParentMany(p, 0, rows) == p
  {
  }

  lemma TreesCount(g: Layout, n: nat, f: Forest, roots: seq<Tree>)
    requires TreesOf(g, n, f, roots)
    ensures |roots| == |RootList(n, TreeRows(n), 0)|
  {
    hide RootList;
  }

  lemma {:induction false} InTurnLast(g: Layout, f: Forest, ds: seq<nat>, i: nat)
    requires i < |ds|
    ensures DeletedInTurn(g, f, ds[..i + 1]) == Deleted(g, DeletedInTurn(g, f, ds[..i]), {ds[i]})
    decreases i
  {
    hide Deleted;
    if i > 0 {
      assert ds[..i + 1][1..] == ds[1..][..i] && ds[..i][1..] == ds[1..][..i - 1];
      InTurnLast(g, Deleted(g, f, {ds[0]}), ds[1..], i - 1);
    } else {
      assert ds[..1] == [ds[0]] && ds[..0] == [] && [ds[0]][1..] == [];
    }
  }

  lemma {:induction false} InTurnSolid(g: Layout, f: Forest, ds: seq<nat>, i: nat)
    requires AllSolid(g, f) && i <= |ds| && forall j :: 0 <= j < |ds| ==> ds[j] in g.nodes
    ensures AllSolid(g, DeletedInTurn(g, f, ds[..i]))
    decreases i
  {
    hide Deleted, AllSolid, DeletedInTurn;
    if i > 0 {
      InTurnSolid(g, f, ds, i - 1);
      InTurnLast(g, f, ds, i - 1);
      SolidAfter(g, DeletedInTurn(g, f, ds[..i - 1]), ds[i - 1]);
    } else {
      InTurnNone(g, f);
      assert ds[..0] == [];
    }
  }

  lemma InTurnNone(g: Layout, f: Forest)
    ensures DeletedInTurn(g, f, []) == f
  {
  }

  /** Leaves that are deleted by their positions. */
  ghost predicate Deletes(g: Layout, slots: seq<Hash>, dels: seq<nat>, hashes: set<Hash>) {
    && LayoutFor(g, TreeRows(|slots|), |slots|) && NoDuplicates(dels)
    && LeafPositions(g, ForestOf(g, slots), Elems(dels), hashes)
  }

  lemma {:induction false} DeletesFacts(g: Layout, slots: seq<Hash>, dels: seq<nat>, hashes: set<Hash>)
    requires Deletes(g, slots, dels, hashes)
    ensures LayoutFor(g, TreeRows(|slots|), |slots|) && g.WellShaped() && g.m == Pow2(TreeRows(|slots|)) &&
            NoDuplicates(dels)
    ensures AllSolid(g, ForestOf(g, slots)) && ValidTargets(g, Elems(dels))
    ensures ForestOf(g, slots).Keys == set r | r in g.nodes && g.IsRoot(r)
    ensures Compact(g, ForestOf(g, slots)) && Deletable(g, ForestOf(g, slots), Elems(dels))
    ensures Deleted(g, ForestOf(g, slots), Elems(dels)) == ForestOf(g, Erase(slots, hashes))
    ensures forall x :: x in Elems(dels) ==> At(g, ForestOf(g, slots), x).Leaf?
  {
    hide LayoutFor, ForestOf, AllSolid, Deleted, Erase, At, Deletable, Compact, Touched;
    LayoutFits(g, TreeRows(|slots|), |slots|);
    SlotsSolid(g, slots);
    DeletedSlots(g, slots, Elems(dels), hashes);
    LeavesValid(g, ForestOf(g, slots), Elems(dels));
  }

  lemma SeparateNodes(g: Layout, ds: seq<nat>)
    requires Separate(g, ds)
    ensures Ascending(ds) && forall j :: 0 <= j < |ds| ==> ds[j] in g.nodes
  {
  }

  /** One row of the carry: the block with the new leaf is the old root joined with it. */
  lemma {:induction false} CarryBlock(slots: seq<Hash>, leaf: Hash, h: nat)
    requires AllOnes(|slots|, h) && Shr(|slots|, h) % 2 == 1
    ensures AllOnes(|slots|, h + 1)
    ensures RootTrees(slots, h) == RootTrees(slots, h + 1) + [Block(slots, h, Shr(|slots|, h) - 1)]
    ensures Block(slots + [leaf], h + 1, Shr(|slots|, h + 1)) ==
            Join(Block(slots, h, Shr(|slots|, h) - 1), Block(slots + [leaf], h, Shr(|slots|, h)))
  {
    hide RootTrees;
    RootTreesStep(slots, h);
    BlockPrefix(slots, [leaf], h, Shr(|slots|, h) - 1);
    assert Shr(|slots|, h + 1) == Shr(|slots|, h) / 2;
  }

  lemma BlockLeaf(slots: seq<Hash>, leaf: Hash)
    requires leaf != Empty
    ensures Block(slots + [leaf], 0, Shr(|slots|, 0)) == Leaf(leaf) && AllOnes(|slots|, 0)
  {
    assert (slots + [leaf])[|slots|] == leaf;
  }

  /** The block with the new leaf is never empty. */
  lemma {:induction false} CarryFull(slots: seq<Hash>, leaf: Hash, h: nat)
    requires AllOnes(|slots|, h) && leaf != Empty
    ensures !Block(slots + [leaf], h, Shr(|slots|, h)).Nil?
    decreases h
  {
    hide Block;
    if h == 0 {
      BlockLeaf(slots, leaf);
    } else {
      CarryFull(slots, leaf, h - 1);
      CarryBlock(slots, leaf, h - 1);
    }
  }

  /** `a` is `b` with some empty trees left out. */
  ghost predicate Drops(a: seq<Tree>, b: seq<Tree>) {
    if |b| == 0 then |a| == 0
    else (b[0].Nil? && Drops(a, b[1..])) || (|a| > 0 && a[0] == b[0] && Drops(a[1..], b[1..]))
  }

  lemma {:induction false} DropsNone(b: seq<Tree>)
    ensures Drops(b, b)
    decreases |b|
  {
    if |b| > 0 { DropsNone(b[1..]); }
  }

  lemma {:induction false} DropsAppend(a: seq<Tree>, b: seq<Tree>, x: Tree)
    requires Drops(a, b)
    ensures Drops(a + [x], b + [x])
    ensures x.Nil? ==> Drops(a, b + [x])
    decreases |b|
  {
    var c := b + [x];
    if |b| > 0 {
      assert c[0] == b[0] && c[1..] == b[1..] + [x];
      if b[0].Nil? && Drops(a, b[1..]) {
        DropsAppend(a, b[1..], x);
      } else {
        DropsAppend(a[1..], b[1..], x);
        assert (a + [x])[1..] == a[1..] + [x];
      }
    } else {
      assert c[1..] == [] && (a + [x])[1..] == [];
    }
  }

  /** A last tree that is not empty is not left out. */
  lemma {:induction false} DropsLast(a: seq<Tree>, b: seq<Tree>, x: Tree)
    requires Drops(a, b + [x]) && !x.Nil?
    ensures |a| > 0 && a[|a| - 1] == x && Drops(a[..|a| - 1], b)
    decreases |b|
  {
    var c := b + [x];
    if |b| > 0 {
      assert c[0] == b[0] && c[1..] == b[1..] + [x];
      if b[0].Nil? && Drops(a, c[1..]) {
        DropsLast(a, b[1..], x);
      } else {
        DropsLast(a[1..], b[1..], x);
        assert a[1..][..|a| - 2] == a[..|a| - 1][1..];
      }
    } else {
      assert c[1..] == [];
    }
  }

  lemma {:induction false} DropsLength(a: seq<Tree>, b: seq<Tree>)
    requires Drops(a, b)
    ensures |a| <= |b| && (|a| == |b| ==> a == b)
    decreases |b|
  {
    if |b| > 0 {
      if b[0].Nil? && Drops(a, b[1..]) {
        DropsLength(a, b[1..]);
      } else {
        DropsLength(a[1..], b[1..]);
        assert a == [a[0]] + a[1..] && b == [b[0]] + b[1..];
      }
    }
  }

  /** What follows the first tree. */
  lemma {:induction false} DropsHead(a: seq<Tree>, b: seq<Tree>)
    requires Drops(a, b) && |b| > 0
    ensures !b[0].Nil? ==> |a| > 0 && a[0] == b[0] && Drops(a[1..], b[1..])
    ensures b[0].Nil? && |a| > 0 && a[0].Nil? ==> Drops(a[1..], b[1..])
    ensures b[0].Nil? && (|a| == 0 || !a[0].Nil?) ==> Drops(a, b[1..])
  {
    if b[0].Nil? && |a| > 0 && a[0].Nil? && Drops(a, b[1..]) {
      DropsAnother(a, b[1..]);
    }
  }

  /** Leaving out one more empty tree. */
  lemma {:induction false} DropsAnother(a: seq<Tree>, b: seq<Tree>)
    requires Drops(a, b) && |a| > 0 && a[0].Nil?
    ensures Drops(a[1..], b)
    decreases |b|
  {
    if b[0].Nil? && Drops(a, b[1..]) {
      DropsAnother(a, b[1..]);
    }
  }

  /** The carry, seen from above: it is the new leaf, with nothing but empty roots below; or the
      highest old root below that is not empty, with the rest of the carry. */
  lemma {:induction false} CarryDown(before: seq<Hash>, leaf: Hash, h: nat, a: seq<Tree>) returns (j: nat)
    requires AllOnes(|before|, h) && leaf != Empty && Drops(a, RootTrees(before, h))
    ensures var node := Block(before + [leaf], h, Shr(|before|, h));
            if node.Node? then j < h && AllOnes(|before|, j) && Drops(a + [node.left], RootTrees(before, j)) &&
                               node.right == Block(before + [leaf], j, Shr(|before|, j))
            else node == Leaf(leaf) && Drops(a, RootTrees(before, 0))
    decreases h
  {
    hide Block, RootTrees;
    if h == 0 {
      BlockLeaf(before, leaf);
      j := 0;
    } else {
      CarryBlock(before, leaf, h - 1);
      CarryFull(before, leaf, h - 1);
      var root := Block(before, h - 1, Shr(|before|, h - 1) - 1);
      DropsAppend(a, RootTrees(before, h), root);
      if root.Nil? {
        j := CarryDown(before, leaf, h - 1, a);
      } else {
        j := h - 1;
      }
    }
  }

  /** Row of the lowest root. */
  method LowestRoot(numLeaves: nat, totalRows: nat) returns (row: nat)
    ensures row <= totalRows + 1
    ensures row <= totalRows ==> Shr(numLeaves, row) % 2 == 1
    ensures forall j :: 0 <= j < row ==> Shr(numLeaves, j) % 2 == 0
  {
    row := 0;
    while row <= totalRows && Shr(numLeaves, row) % 2 == 0
      invariant row <= totalRows + 1 && forall j :: 0 <= j < row ==> Shr(numLeaves, j) % 2 == 0
    {
      row := row + 1;
    }
  }

  /** A later position is not moved by a deletion. */
  lemma {:induction false} AtAfterOne(g: Layout, f: Forest, d: nat, e: nat)
    requires AllSolid(g, f) && d in g.nodes && e in g.nodes && e > d && e != Sibling(d)
    requires forall r :: r in f <==> r in g.nodes && g.IsRoot(r)
    ensures At(g, Deleted(g, f, {d}), e) == Rem(g, {d}, e, At(g, f, e))
    decreases 2 * g.m - e
  {
    hide Above, Layout.WellShaped, Rem, ForestOk, AllSolid, At, Layout.IsRoot, Deleted;
    SolidShape(g, f);
    if g.IsRoot(e) {
      DeletedTree(g, f, d, e);
      AtRootOf(g, f, e);
      AtRootOf(g, Deleted(g, f, {d}), e);
    } else {
      g.NonRootFacts(e);
      var u := g.Up(e);
      if u == Sibling(d) { SiblingUp(g, d, e); BelowSibling(g, d, e); }
      AtAfterOne(g, f, d, u);
      AtDeleted(g, f, d, e);
    }
  }

  lemma DeletedTree(g: Layout, f: Forest, d: nat, r: nat)
    requires r in f
    ensures r in Deleted(g, f, {d}) && Deleted(g, f, {d})[r] == Rem(g, {d}, r, f[r])
  {
  }

  lemma SolidShape(g: Layout, f: Forest)
    requires AllSolid(g, f)
    ensures g.WellShaped() && ForestOk(g, f)
  {
  }

  lemma {:induction false} SiblingUp(g: Layout, d: nat, e: nat)
    requires g.WellShaped() && d in g.nodes && e in g.nodes && g.Up(e) == Sibling(d) && Sibling(d) in g.nodes
    ensures !g.IsRoot(d) && Above(g, Sibling(d), e)
  {
    g.NodeBound(e);
    if g.IsRoot(d) { g.RootFacts(d); }
  }

  lemma {:induction false} AtDeleted(g: Layout, f: Forest, d: nat, e: nat)
    requires AllSolid(g, f) && d in g.nodes && e in g.nodes && !g.IsRoot(e) && e > d && e != Sibling(d)
    requires At(g, Deleted(g, f, {d}), g.Up(e)) == Rem(g, {d}, g.Up(e), At(g, f, g.Up(e)))
    ensures At(g, Deleted(g, f, {d}), e) == Rem(g, {d}, e, At(g, f, e))
  {
    hide Above, Layout.WellShaped, ForestOk, AllSolid, Deleted;
    SolidShape(g, f);
    g.NonRootFacts(e);
    g.NodeBound(e);
    var u := g.Up(e);
    var t := At(g, f, u);
    SolidAt(g, f, u);
    AtFits(g, f, u);
    SiblingTwice(d, e);
    if t.Node? {
      RemKeeps(g, d, g.Left(u), t.left);
      RemKeeps(g, d, g.Right(u), t.right);
    }
  }

  lemma SiblingTwice(d: nat, e: nat)
    requires e != Sibling(d)
    ensures Sibling(e) != d
  {
  }

  lemma {:induction false} SolidAt(g: Layout, f: Forest, p: nat)
    requires AllSolid(g, f)
    ensures Solid(At(g, f, p))
    decreases 2 * g.m - p
  {
    if p in g.nodes && p < 2 * g.m - 1 && !g.IsRoot(p) {
      SolidAt(g, f, g.Up(p));
    }
  }

  lemma {:induction false} InTurnKeys(g: Layout, f: Forest, ds: seq<nat>)
    ensures DeletedInTurn(g, f, ds).Keys == f.Keys
    decreases |ds|
  {
    if |ds| > 0 { InTurnKeys(g, Deleted(g, f, {ds[0]}), ds[1..]); }
  }

  lemma SeparatePair(g: Layout, ds: seq<nat>, i: nat, j: nat)
    requires Separate(g, ds) && i < j < |ds|
    ensures ds[i] in g.nodes && ds[j] in g.nodes && ds[j] > ds[i] && ds[j] != Sibling(ds[i]) &&
            !AtOrAbove(g, ds[j], ds[i])
  {
    hide Above, Layout.WellShaped;
    assert ds[j] in ds;
  }

  /** Until it is its turn, a position to be deleted has what it had. */
  lemma {:induction false} StillThere(g: Layout, f: Forest, ds: seq<nat>, i: nat, j: nat)
    requires AllSolid(g, f) && Separate(g, ds) && i <= j < |ds|
    requires forall r :: r in f <==> r in g.nodes && g.IsRoot(r)
    ensures At(g, DeletedInTurn(g, f, ds[..i]), ds[j]) == At(g, f, ds[j])
    decreases i
  {
    hide Above, Layout.WellShaped, ForestOk, AllSolid, DeletedInTurn, Deleted, At, Rem, Separate, Layout.IsRoot;
    SeparateNodes(g, ds);
    if i > 0 {
      var f' := DeletedInTurn(g, f, ds[..i - 1]);
      var d, e := ds[i - 1], ds[j];
      StillThere(g, f, ds, i - 1, j);
      InTurnLast(g, f, ds, i - 1);
      InTurnSolid(g, f, ds, i - 1);
      InTurnKeys(g, f, ds[..i - 1]);
      SeparatePair(g, ds, i - 1, j);
      SolidShape(g, f');
      AtAfterOne(g, f', d, e);
      SolidAt(g, f', e);
      AtFits(g, f', e);
      NotBelow(g, e, d, At(g, f', e));
    } else {
      assert ds[..0] == [];
      InTurnNone(g, f);
    }
  }

  lemma AtRootOf(g: Layout, f: Forest, r: nat)
    requires g.WellShaped() && g.IsRoot(r) && r in f
    ensures At(g, f, r) == f[r]
  {
    g.NodeBound(r);
  }
}
