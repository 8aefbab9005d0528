/** Deleting and adding leaves in the full pollard, on values. */
module NiecePollard {
  import opened Hashes
  import opened Positions
  import opened Geometry
  import opened Layouts
  import opened Entries
  import opened Shape
  import opened Forests
  import opened Honest
  import opened Deletion
  import opened Sequential
  import opened DeTwin
  import opened Relocation
  import opened Slots
  import opened Uniqueness
  import opened Navigation
  import opened TreeIndex
  import opened OneDeletion
  import opened Pollards
  import opened LeafCounts
  import opened Nieces
  import opened NieceNavigation
  import opened NieceEdits

  /** The nodes of the roots of a forest, in order. */
  ghost predicate NodesOf(g: Layout, n: nat, f: Forest, roots: seq<PolNode>) {
    var list := RootList(n, TreeRows(n), 0);
    |roots| == |list| && forall k :: 0 <= k < |list| ==> list[k] in f && IsRootNode(roots[k], f[list[k]])
  }

  /** The nodes of the slots are those of the trees of its roots. */
  lemma {:induction false} NodesOfSlots(g: Layout, slots: seq<Hash>, roots: seq<PolNode>)
    requires LayoutFor(g, TreeRows(|slots|), |slots|)
    ensures NodesOf(g, |slots|, ForestOf(g, slots), roots) <==> Grove(roots, RootTrees(slots, 0))
  {
    hide RootList, RootTrees, LayoutFor, IsRootNode, ForestOf, TreeRows;
    TreesOfSlots(g, slots);
  }

  lemma NodesCount(g: Layout, n: nat, f: Forest, roots: seq<PolNode>)
    requires NodesOf(g, n, f, roots)
    ensures |roots| == |RootList(n, TreeRows(n), 0)| && forall k :: 0 <= k < |roots| ==> roots[k].Pol?
  {
    hide RootList, Kids;
  }

  /** The node of the root above a position. */
  lemma {:induction false} NodeOfRoot(g: Layout, n: nat, f: Forest, roots: seq<PolNode>, k: nat)
    requires LayoutFor(g, TreeRows(n), n) && ForestOk(g, f) && NodesOf(g, n, f, roots) && k < |roots|
    ensures k < |RootList(n, TreeRows(n), 0)|
    ensures var r := RootList(n, TreeRows(n), 0)[k];
            g.IsRoot(r) && r in f && IsRootNode(roots[k], At(g, f, r)) && At(g, f, r) == f[r]
  {
    hide LayoutFor, Layout.WellShaped, TreeRows, RootList, IsRootNode;
    RootPlaces(g, n, k);
    OkShape(g, f);
    AtRootOf(g, f, RootList(n, TreeRows(n), 0)[k]);
  }

  /** One tree is replaced, and its node with it. */
  lemma {:induction false} NodesReplaced(g: Layout, n: nat, f: Forest, f': Forest, roots: seq<PolNode>, k: nat,
                                         node: PolNode)
    requires LayoutFor(g, TreeRows(n), n) && NodesOf(g, n, f, roots) && k < |roots| && f'.Keys == f.Keys
    requires var r := RootList(n, TreeRows(n), 0)[k];
             r in f' && IsRootNode(node, f'[r]) && forall s :: s in f && g.IsRoot(s) && s != r ==> f'[s] == f[s]
    ensures NodesOf(g, n, f', roots[k := node])
  {
    hide LayoutFor, TreeRows, RootList, IsRootNode, Layout.IsRoot;
    var list := RootList(n, TreeRows(n), 0);
    forall j | 0 <= j < |list|
      ensures list[j] in f' && IsRootNode(roots[k := node][j], f'[list[j]])
    {
      RootPlaces(g, n, j);
      RootPlaces(g, n, k);
    }
  }

  lemma {:induction false} OtherTrees(g: Layout, n: nat, f: Forest, d: nat)
    requires LayoutFor(g, TreeRows(n), n) && AllSolid(g, f) && d in g.nodes
    ensures Deleted(g, f, {d}).Keys == f.Keys
    ensures forall s :: s in f && g.IsRoot(s) && s != RootOf(g, d) ==> Deleted(g, f, {d})[s] == f[s]
  {
    hide LayoutFor, TreeRows, Layout.IsRoot, AllSolid, RootOf, Rem;
    forall s | s in f && g.IsRoot(s) && s != RootOf(g, d)
      ensures Deleted(g, f, {d})[s] == f[s]
    {
      OneTree(g, n, f, d, s);
    }
  }

  /** The digits of the way to a position lead to it from every node above it. */
  lemma {:induction false} TurnsLead(g: Layout, n: nat, q: nat, bits: int, branchLen: nat, h: nat)
    requires LayoutFor(g, TreeRows(n), n) && q in g.nodes && Valid(TreeRows(n), q) && Valid(TreeRows(n), RootOf(g, q))
    requires branchLen + Row(TreeRows(n), q) == Row(TreeRows(n), RootOf(g, q)) && 0 < h <= branchLen
    requires forall j: nat :: j < branchLen ==> Digit(bits, j) == Turn(TreeRows(n), q, j)
    ensures Leads(g, bits, h, ParentMany(q, h, TreeRows(n)), q)
    decreases h
  {
    hide LayoutFor, Row, Layout.WellShaped, RootOf, ParentMany, TreeRows, Layout.IsRoot, Digit, Turn;
    var rows := TreeRows(n);
    LayoutFits(g, rows, n);
    RiseNone(q, rows);
    OnTheRise(g, n, q, h - 1);
    OnTheRise(g, n, q, h);
    TurnIs(rows, q, h - 1);
    var c, p := ParentMany(q, h - 1, rows), ParentMany(q, h, rows);
    g.NonRootFacts(c);
    if h > 1 { TurnsLead(g, n, q, bits, branchLen, h - 1); }
  }

  /** The way from the root. */
  lemma {:induction false} LeadsFromRoot(g: Layout, n: nat, q: nat, bits: int, branchLen: nat)
    requires LayoutFor(g, TreeRows(n), n) && q in g.nodes && Valid(TreeRows(n), q) && Valid(TreeRows(n), RootOf(g, q))
    requires branchLen + Row(TreeRows(n), q) == Row(TreeRows(n), RootOf(g, q))
    requires forall j: nat :: j < branchLen ==> Digit(bits, j) == Turn(TreeRows(n), q, j)
    ensures branchLen == 0 <==> g.IsRoot(q)
    ensures !g.IsRoot(q) ==> Leads(g, bits, branchLen, RootOf(g, q), q)
  {
    hide LayoutFor, Row, Layout.WellShaped, RootOf, ParentMany, TreeRows, Layout.IsRoot, Digit, Turn, Leads;
    RootByRow(g, n, q);
    if branchLen > 0 {
      TurnsLead(g, n, q, bits, branchLen, branchLen);
      RiseToRoot(g, n, q, branchLen);
    }
  }

  /** A root after an edit. */
  lemma {:induction false} EditedRoot(e: Edited, t: Tree)
    requires EditedTo(e, t)
    ensures IsRootNode(Pol(e.data, e.l, e.r, e.remember), t)
  {
    hide Kids;
  }

  lemma {:induction false} SolidKnown(g: Layout, n: nat, f: Forest, d: nat)
    requires LayoutFor(g, TreeRows(n), n) && AllSolid(g, f) && d in g.nodes && !g.IsRoot(d)
    ensures g.WellShaped() && g.m == Pow2(TreeRows(n)) && ForestOk(g, f)
    ensures Sibling(d) in g.nodes && !g.IsRoot(Sibling(d)) && RootOf(g, Sibling(d)) == RootOf(g, d) &&
            Sibling(Sibling(d)) == d
  {
    hide LayoutFor, Layout.WellShaped, RootOf, TreeRows, Layout.IsRoot, ForestOk;
    LayoutFits(g, TreeRows(n), n);
    g.NonRootFacts(d);
    RootOfUp(g, d);
    RootOfUp(g, Sibling(d));
  }

  /** What the edit of a root does, and what the deleted node was. */
  lemma {:induction false} DeletedNodes(g: Layout, n: nat, f: Forest, roots: seq<PolNode>, tree: nat, d: nat, bits: int,
                                        branchLen: nat)
    requires LayoutFor(g, TreeRows(n), n) && AllSolid(g, f) && ForestOk(g, f) && g.WellShaped() &&
             g.m == Pow2(TreeRows(n)) && NodesOf(g, n, f, roots)
    requires d in g.nodes && !g.IsRoot(d) && !At(g, f, d).Nil? && tree < |roots| && tree < |RootList(n, TreeRows(n), 0)|
    requires var q := Sibling(d);
             && q in g.nodes && !g.IsRoot(q) && Sibling(q) == d && RootOf(g, q) == RootOf(g, d) &&
                RootList(n, TreeRows(n), 0)[tree] == RootOf(g, q)
             && Valid(TreeRows(n), q) && Valid(TreeRows(n), RootOf(g, q))
             && branchLen + Row(TreeRows(n), q) == Row(TreeRows(n), RootOf(g, q))
             && (forall j: nat :: j < branchLen ==> Digit(bits, j) == Turn(TreeRows(n), q, j))
    ensures branchLen > 0
    ensures Follow(roots[tree], WayTo(g, Sibling(d))).Pol?
    ensures DataOf(Follow(roots[tree], WayBeside(g, Sibling(d)))) == Merkle(At(g, f, d))
    ensures var e := DeleteBelow(roots[tree], RememberOf(roots[tree]), bits, branchLen);
            NodesOf(g, n, Deleted(g, f, {d}), roots[tree := Pol(e.data, e.l, e.r, e.remember)])
  {
    hide LayoutFor, Row, Layout.WellShaped, RootOf, ParentMany, TreeRows, Layout.IsRoot, Digit, Turn, Leads, AllSolid,
         NodesOf, At, Deleted, RootList, BiggerTrees, Follow, WayTo, WayBeside, Merkle, DeleteBelow, Kids, DeleteAt,
         ForestOk, EditedTo, Pow2;
    var q, root := Sibling(d), roots[tree];
    NodeOfRoot(g, n, f, roots, tree);
    var r := RootOf(g, q);
    LeadsFromRoot(g, n, q, bits, branchLen);
    DeleteBelowTo(g, f, TreeRows(n), root, RememberOf(root), bits, branchLen, r, q);
    var e := DeleteBelow(root, RememberOf(root), bits, branchLen);
    EditedRoot(e, DeleteAt(TreeRows(n), r, At(g, f, r), d));
    NotItsRoot(g, d);
    OneTree(g, n, f, d, r);
    OtherTrees(g, n, f, d);
    NodesReplaced(g, n, f, Deleted(g, f, {d}), roots, tree, Pol(e.data, e.l, e.r, e.remember));
    DeletedThere(g, f, root, d);
  }

  lemma {:induction false} NotItsRoot(g: Layout, d: nat)
    requires g.WellShaped() && d in g.nodes && !g.IsRoot(d)
    ensures RootOf(g, d) != d
  {
    hide Layout.WellShaped, RootOf, Layout.IsRoot;
    RootOfFacts(g, d);
  }

  /** The node that is deleted is the one beside that of its sibling. */
  lemma {:induction false} DeletedThere(g: Layout, f: Forest, root: PolNode, d: nat)
    requires ForestOk(g, f) && d in g.nodes && !g.IsRoot(d) && !At(g, f, d).Nil? && Sibling(d) in g.nodes &&
             !g.IsRoot(Sibling(d))
    requires IsRootNode(root, At(g, f, RootOf(g, Sibling(d)))) && RootOf(g, Sibling(d)) == RootOf(g, d) &&
             Sibling(Sibling(d)) == d
    ensures Follow(root, WayTo(g, Sibling(d))).Pol?
    ensures DataOf(Follow(root, WayBeside(g, Sibling(d)))) == Merkle(At(g, f, d))
  {
    hide Layout.WellShaped, RootOf, Layout.IsRoot, At, ForestOk, Follow, WayTo, WayBeside, Merkle, Kids, IsRootNode,
         Present;
    OkShape(g, f);
    var q := Sibling(d);
    g.NonRootFacts(d);
    UpAbove(g, d);
    NodeAbove(g, f, d, g.Up(d));
    PresentBelow(g, f, d);
    PresentBelow(g, f, q);
    Found(g, f, root, q);
    Found(g, f, root, d);
    WaySteps(g, d);
    WaySteps(g, q);
    OtherSide(d);
  }

  lemma OtherSide(d: nat)
    ensures 1 - Sibling(d) % 2 == d % 2
  {
  }

  /** The hash of what is deleted is not that of a leaf that stays. */
  lemma {:induction false} GoneHash(g: Layout, slots: seq<Hash>, dels: seq<nat>, hashes: set<Hash>, ds: seq<nat>,
                                    i: nat)
    requires Deletes(g, slots, dels, hashes) && GoodSlots(slots) && Largest(g, Elems(dels), ds) && i < |ds|
    ensures var t := At(g, ForestOf(g, slots), ds[i]); !t.Nil? && Merkle(t) !in LeafKeys(Erase(slots, hashes))
  {
    hide LayoutFor, At, ForestOf, Separate, Gone, Layout.WellShaped, AllSolid, Deletable, Compact, Touched, Deleted,
         ValidTargets;
    DeletesFacts(g, slots, dels, hashes);
    assert ds[i] in ds;
    assert Maximal(g, Elems(dels), ds[i]);
    GonePresent(g, ForestOf(g, slots), Elems(dels), ds[i]);
    var t := At(g, ForestOf(g, slots), ds[i]);
    if t.Leaf? {
      assert ds[i] in Elems(dels);
    } else {
      InnerHash(t);
      KeysAreLeaves(slots, hashes);
    }
  }

  lemma InnerHash(t: Tree)
    requires t.Node?
    ensures !IsLeafHash(Merkle(t))
  {
  }

  lemma {:induction false} KeysAreLeaves(slots: seq<Hash>, hashes: set<Hash>)
    requires GoodSlots(slots)
    ensures forall h :: h in LeafKeys(Erase(slots, hashes)) ==> IsLeafHash(h)
  {
    hide IsLeafHash;
    forall h | h in LeafKeys(Erase(slots, hashes))
      ensures IsLeafHash(h)
    {
      var after := Erase(slots, hashes);
      var i :| 0 <= i < |after| && after[i] == h;
      assert slots[i] == h;
    }
  }

  lemma RootKeys(g: Layout, f: Forest)
    requires f.Keys == set r | r in g.nodes && g.IsRoot(r)
    ensures forall r :: r in f <==> r in g.nodes && g.IsRoot(r)
  {
  }

  predicate DeadEnd(n: PolNode) {
    n.Pol? && n.lNiece.NoNode? && n.rNiece.NoNode?
  }

  /** Each gets the nieces of the other. */
  function SwapNieces(a: PolNode, b: PolNode): (r: (PolNode, PolNode)) {
    (WithNieces(a, Niece(b, 0), Niece(b, 1)), WithNieces(b, Niece(a, 0), Niece(a, 1)))
  }

  /** Two roots that swap their nieces hang below a root of both. */
  lemma {:induction false} SwappedRoots(a: PolNode, b: PolNode, t: Tree, u: Tree)
    requires IsRootNode(a, t) && IsRootNode(b, u)
    ensures var (x, y) := SwapNieces(a, b);
            && Holds(x, t, u) && Holds(y, u, t) && RememberOf(x) == RememberOf(a) && RememberOf(y) == RememberOf(b)
            && forall remember :: IsRootNode(Pol(ParentHash(a.data, b.data), x, y, remember), Node(t, u))
  {
    hide Kids;
    KidsOfAny(b, a.data, a.remember, u);
    KidsOfAny(a, b.data, b.remember, t);
    var (x, y) := SwapNieces(a, b);
    forall remember
      ensures IsRootNode(Pol(ParentHash(a.data, b.data), x, y, remember), Node(t, u))
    {
      RootOfPair(Pol(ParentHash(a.data, b.data), x, y, remember), t, u);
    }
  }

  lemma RootOfPair(n: PolNode, t: Tree, u: Tree)
    requires n.Pol? && n.data == ParentHash(Merkle(t), Merkle(u)) && Holds(n.lNiece, t, u) && Holds(n.rNiece, u, t)
    ensures IsRootNode(n, Node(t, u))
  {
  }

  /** Nodes below a root come apart into two roots. */
  lemma {:induction false} SwappedBack(n: PolNode, t: Tree, u: Tree)
    requires IsRootNode(n, Node(t, u))
    ensures n.Pol? && n.lNiece.Pol? && n.rNiece.Pol?
    ensures var (x, y) := SwapNieces(n.lNiece, n.rNiece); IsRootNode(x, t) && IsRootNode(y, u)
  {
    PairOfRoot(n, t, u);
    hide Kids;
    KidsOfAny(n.rNiece, n.lNiece.data, n.lNiece.remember, t);
    KidsOfAny(n.lNiece, n.rNiece.data, n.rNiece.remember, u);
  }

  lemma PairOfRoot(n: PolNode, t: Tree, u: Tree)
    requires IsRootNode(n, Node(t, u))
    ensures n.Pol? && Holds(n.lNiece, t, u) && Holds(n.rNiece, u, t) && n.lNiece.Pol? && n.rNiece.Pol?
  {
    var both := Node(t, u);
    assert Kids(n, both);
    assert Holds(n.lNiece, both.left, both.right) && Holds(n.rNiece, both.right, both.left);
  }

  lemma GroveLast(roots: seq<PolNode>, trees: seq<Tree>, t: Tree)
    requires Grove(roots, trees + [t])
    ensures |roots| > 0 && IsRootNode(roots[|roots| - 1], t) && Grove(roots[..|roots| - 1], trees)
  {
    hide IsRootNode;
    var all := trees + [t];
    assert forall i :: 0 <= i < |trees| ==> all[i] == trees[i];
    assert all[|trees|] == t;
  }

  lemma GroveAppend(roots: seq<PolNode>, trees: seq<Tree>, n: PolNode, t: Tree)
    requires Grove(roots, trees) && IsRootNode(n, t)
    ensures Grove(roots + [n], trees + [t])
  {
    hide IsRootNode;
  }

  lemma {:induction false} EmptyRoot(n: PolNode, t: Tree)
    requires IsRootNode(n, t) && LeavesOk(t)
    ensures n.Pol? && (n.data == Empty <==> t.Nil?)
  {
    hide Kids;
    MerkleEmpty(t);
  }

  lemma JoinIs(t: Tree, u: Tree)
    ensures t.Nil? ==> Join(t, u) == u
    ensures !t.Nil? && !u.Nil? ==> Join(t, u) == Node(t, u)
  {
  }

  lemma SingleLeaf(n: PolNode)
    requires DeadEnd(n)
    ensures IsRootNode(n, Leaf(n.data))
  {
  }

  lemma NodeIsPol(n: PolNode, t: Tree)
    requires IsRootNode(n, t)
    ensures n.Pol?
  {
  }
}
